/**
 * What one dispatch call does to the queue when nobody else acts and no statement fails: which rows
 * it takes, which of them it hands over, and what becomes of each when the sinks accept them or do
 * not. Everything is told by the queue before the call.
 */
module AuditCalls {
  import opened Outcomes
  import opened AuditOutbox
  import opened AuditDelivery
  import AuditClocks
  import AuditLeases

  /** What a call gets from outside: whether every sink accepts, and the times between which it settles. */
  datatype Answers = Answers(accepted: bool, from: int, until: int)

  /** A statement of the call after its first, which works. */
  predicate Works(token: string, a: Answers, e: Event) {
    match e
    case Cas(t, fault) => t == token && fault.Fine?
    case ReadBack(t, _, fault) => t == token && fault.Fine?
    case Deliver(t, results) => t == token && AllTrue(results) == a.accepted
    case Settle(t, now, fault) => t == token && a.from <= now <= a.until && fault.Fine?
    case _ => false
  }

  predicate AllWork(token: string, a: Answers, events: seq<Event>) { forall i :: 0 <= i < |events| ==> Works(token, a, events[i]) }

  /** The whole of one call, from its selection to its last settlement. */
  predicate WholeCall(c: Settings, w: World, token: string, a: Answers, events: seq<Event>)
    requires Possible(c, w, events)
  {
    && events != [] && events[0].Select? && events[0].token == token
    && AllWork(token, a, events[1..]) && token !in Final(c, w, events).flights
  }

  // ----- what becomes of the rows -----

  function Found(rows: Rows, id: string): Option<Row> { if id in rows then Some(rows[id]) else None }

  /** The rows the call can hand over: those selected that still have their record. */
  function Handed(w: World, ids: seq<string>): set<string> { set id | id in Members(ids) && id in w.records && id in w.rows }

  predicate Exhausted(c: Settings, row: Row) { row.attempts + 1 >= c.maxAttempts }

  /** A row that was handed over: gone when accepted; else dead after its last attempt, or free again after a delay. */
  predicate Resolved(c: Settings, a: Answers, row: Row, later: Option<Row>) {
    if a.accepted then later.None?
    else
      && later.Some?
      && var r := later.value;
         && r == row.(attempts := row.attempts + 1, claim := None, nextAt := r.nextAt, deadAt := r.deadAt)
         && if Exhausted(c, row) then r.nextAt == row.nextAt && r.deadAt.Some? && a.from <= r.deadAt.value <= a.until
            else
              var delay := AuditClocks.Backoff(row.attempts + 1);
              r.deadAt == row.deadAt && a.from + delay <= r.nextAt <= a.until + delay
  }

  /** What has become of one row: resolved, taken by the claim, or as it was. */
  predicate Became(c: Settings, a: Answers, claim: Claim, row: Option<Row>, later: Option<Row>, taken: bool, resolved: bool) {
    if resolved then row.Some? && Resolved(c, a, row.value, later)
    else if taken then row.Some? && later == Some(row.value.(claim := Some(claim), attempts := row.value.attempts + 1))
    else later == row
  }

  ghost predicate Turned(c: Settings, a: Answers, claim: Claim, rows: Rows, later: Rows, taken: set<string>, resolved: set<string>) {
    forall id: string :: Became(c, a, claim, Found(rows, id), Found(later, id), id in taken, id in resolved)
  }

  /** The dead letters among the resolved rows. */
  function Buried(c: Settings, a: Answers, rows: Rows, resolved: set<string>): set<string> {
    set id | id in resolved && id in rows && !a.accepted && Exhausted(c, rows[id])
  }

  /** Some of the rows carried another call's claim. */
  predicate TakenOver(rows: Rows, ids: set<string>) { exists id :: id in ids && id in rows && rows[id].claim.Some? }

  /** The counters after reading back and resolving. */
  predicate Tallies(c: Settings, a: Answers, w: World, later: World, read: set<string>, resolved: set<string>) {
    later.counters == w.counters.(
      duplicated := w.counters.duplicated + CountIf(TakenOver(w.rows, read), 1),
      deadLettered := w.counters.deadLettered + |Buried(c, a, w.rows, resolved)|)
  }

  predicate Elsewhere(w: World, later: World, token: string) {
    later.records == w.records && later.janitor == w.janitor && later.flights - {token} == w.flights
  }

  /**
   * The call took exactly the rows it selected. Those without their record keep its claim; the
   * others were handed over and resolved, and the counters say how many died and whether one was
   * taken over. Nothing else has changed.
   */
  ghost predicate Dispatched(c: Settings, a: Answers, w: World, later: World, token: string, at: int, ids: seq<string>) {
    && Turned(c, a, Claim(token, at), w.rows, later.rows, Members(ids), Handed(w, ids))
    && Tallies(c, a, w, later, Handed(w, ids), Handed(w, ids))
    && later.records == w.records && later.janitor == w.janitor && later.flights == w.flights
  }

  // ----- the stages of a call -----

  /** The call, and the state it began in. */
  datatype Call = Call(c: Settings, a: Answers, w: World, token: string, now: int, at: int, ids: seq<string>)

  ghost predicate Starts(k: Call) {
    && AuditLeases.Tidy(k.w) && FitsWorker(k.c, k.w, Select(k.token, k.now, k.at, k.ids))
  }

  ghost predicate Stage(k: Call, w: World, taken: set<string>, read: set<string>, resolved: set<string>) {
    && Elsewhere(k.w, w, k.token)
    && Turned(k.c, k.a, Claim(k.token, k.at), k.w.rows, w.rows, taken, resolved)
    && Tallies(k.c, k.a, k.w, w, read, resolved)
  }

  /** After the first `n` claims. */
  ghost predicate Taking(k: Call, w: World, n: nat)
    requires Starts(k)
  {
    && n <= |k.ids| && Stage(k, w, Members(k.ids[..n]), {}, {})
    && k.token in w.flights
    && var f := w.flights[k.token];
       && f.Claiming? && f.at == k.at && f.cutoff == k.now - k.c.lease && f.left == Candidates(k.w.rows, k.ids)[n..]
       && f.won.Keys == Members(k.ids[..n])
       && (forall id :: id in f.won ==> id in k.w.rows && f.won[id] == k.w.rows[id].claim.Some?)
  }

  /** A batch of rows that were handed over, as they were read back. */
  ghost predicate BatchOf(k: Call, batch: seq<Claimed>) {
    && (forall i :: 0 <= i < |batch| ==>
          var id := batch[i].id;
          id in Handed(k.w, k.ids) && batch[i] == Claimed(id, k.w.rows[id].attempts + 1, k.w.rows[id].claim.Some?))
    && (forall i, j :: 0 <= i < j < |batch| ==> batch[i].id != batch[j].id)
  }

  ghost predicate HandingOver(k: Call, w: World) {
    var handed := Handed(k.w, k.ids);
    && Stage(k, w, Members(k.ids), handed, {}) && k.token in w.flights
    && var f := w.flights[k.token];
       f.Delivering? && BatchOf(k, f.rows) && BatchIds(f.rows) == handed && f.rows != []
  }

  ghost predicate SettlingRest(k: Call, w: World) {
    var handed := Handed(k.w, k.ids);
    && k.token in w.flights
    && var f := w.flights[k.token];
       && f.Settling? && f.accepted == k.a.accepted && f.rows != [] && BatchOf(k, f.rows)
       && Stage(k, w, Members(k.ids), handed, handed - BatchIds(f.rows))
  }

  ghost predicate Over(k: Call, w: World) {
    k.token !in w.flights && Stage(k, w, Members(k.ids), Handed(k.w, k.ids), Handed(k.w, k.ids))
  }

  ghost predicate Underway(k: Call, w: World)
    requires Starts(k)
  {
    || (exists n :: Taking(k, w, n))
    || HandingOver(k, w) || SettlingRest(k, w) || Over(k, w)
  }

  lemma Begins(k: Call)
    requires Starts(k)
    ensures Taking(k, Selected(k.c, k.w, k.token, k.now, k.at, k.ids), 0)
  {
    var w := Selected(k.c, k.w, k.token, k.now, k.at, k.ids);
    assert w.flights - {k.token} == k.w.flights;
    assert Candidates(k.w.rows, k.ids)[0..] == Candidates(k.w.rows, k.ids);
  }

  /** The next candidate is still as it was selected, and is taken. */
  lemma TakesNext(k: Call, w: World, n: nat)
    requires Starts(k) && Taking(k, w, n) && n < |k.ids|
    ensures Taking(k, Casing(w, k.token, Fine), n + 1)
  {
    var f := w.flights[k.token];
    var id := k.ids[n];
    assert f.left[0] == Candidates(k.w.rows, k.ids)[n] && f.left[1..] == Candidates(k.w.rows, k.ids)[n + 1..];
    assert id !in Members(k.ids[..n]) && Members(k.ids[..n + 1]) == Members(k.ids[..n]) + {id};
    assert Became(k.c, k.a, Claim(k.token, k.at), Found(k.w.rows, id), Found(w.rows, id), false, false);
    assert id in w.rows && w.rows[id] == k.w.rows[id];
    assert Takes(w.rows, id, Claim(k.token, k.at), f.cutoff);
    var later := Casing(w, k.token, Fine);
    assert later.flights - {k.token} == w.flights - {k.token};
    forall other: string
      ensures Became(k.c, k.a, Claim(k.token, k.at), Found(k.w.rows, other), Found(later.rows, other), other in Members(k.ids[..n + 1]), false)
    {
      assert Became(k.c, k.a, Claim(k.token, k.at), Found(k.w.rows, other), Found(w.rows, other), other in Members(k.ids[..n]), false);
    }
  }

  /** What carries the claim and has its record is what can be handed over. */
  lemma OwnsHanded(k: Call, w: World)
    requires Starts(k) && Taking(k, w, |k.ids|)
    ensures Owned(w.rows, w.records, k.token) == Handed(k.w, k.ids)
    ensures forall id :: id in Handed(k.w, k.ids) ==> id in w.rows && w.rows[id].attempts == k.w.rows[id].attempts + 1
  {
    assert k.ids[..|k.ids|] == k.ids;
    forall id: string ensures id in Owned(w.rows, w.records, k.token) <==> id in Handed(k.w, k.ids) {
      assert Became(k.c, k.a, Claim(k.token, k.at), Found(k.w.rows, id), Found(w.rows, id), id in Members(k.ids), false);
    }
    forall id | id in Handed(k.w, k.ids) ensures id in w.rows && w.rows[id].attempts == k.w.rows[id].attempts + 1 {
      assert Became(k.c, k.a, Claim(k.token, k.at), Found(k.w.rows, id), Found(w.rows, id), true, false);
    }
  }

  lemma EntryRead(k: Call, w: World, ids: seq<string>, i: nat)
    requires Starts(k) && Taking(k, w, |k.ids|)
    requires Members(ids) == Owned(w.rows, w.records, k.token) && i < |ids|
    requires forall j :: 0 <= j < |ids| ==> ids[j] in w.rows
    ensures ids[i] in Handed(k.w, k.ids)
    ensures Batch(w.rows, ids, w.flights[k.token].won)[i]
         == Claimed(ids[i], k.w.rows[ids[i]].attempts + 1, k.w.rows[ids[i]].claim.Some?)
  {
    OwnsHanded(k, w);
    assert k.ids[..|k.ids|] == k.ids;
    assert ids[i] in Members(ids);
  }

  lemma BatchRead(k: Call, w: World, ids: seq<string>)
    requires Starts(k) && Taking(k, w, |k.ids|)
    requires Distinct(ids) && Members(ids) == Owned(w.rows, w.records, k.token)
    requires forall i :: 0 <= i < |ids| ==> ids[i] in w.rows
    ensures var batch := Batch(w.rows, ids, w.flights[k.token].won);
      && BatchOf(k, batch) && BatchIds(batch) == Handed(k.w, k.ids)
      && (AnyStolen(batch) <==> TakenOver(k.w.rows, Handed(k.w, k.ids)))
  {
    OwnsHanded(k, w);
    var batch := Batch(w.rows, ids, w.flights[k.token].won);
    forall i | 0 <= i < |batch|
      ensures batch[i].id in Handed(k.w, k.ids)
      ensures batch[i] == Claimed(ids[i], k.w.rows[ids[i]].attempts + 1, k.w.rows[ids[i]].claim.Some?)
    {
      EntryRead(k, w, ids, i);
    }
    BatchMembers(batch, ids);
    OverIsStolen(k.w.rows, ids, batch);
  }

  lemma BatchMembers(batch: seq<Claimed>, ids: seq<string>)
    requires |batch| == |ids| && forall i :: 0 <= i < |ids| ==> batch[i].id == ids[i]
    ensures BatchIds(batch) == Members(ids)
  {
    forall i | 0 <= i < |ids| ensures ids[i] in BatchIds(batch) {
      assert batch[i].id == ids[i];
    }
  }

  lemma OverIsStolen(rows: Rows, ids: seq<string>, batch: seq<Claimed>)
    requires |batch| == |ids| && forall i :: 0 <= i < |ids| ==> ids[i] in rows && batch[i].stolen == rows[ids[i]].claim.Some?
    ensures AnyStolen(batch) <==> TakenOver(rows, Members(ids))
  {
    if AnyStolen(batch) {
      var i :| 0 <= i < |batch| && batch[i].stolen;
      assert ids[i] in Members(ids);
    }
    if TakenOver(rows, Members(ids)) {
      var id :| id in Members(ids) && id in rows && rows[id].claim.Some?;
      var i :| 0 <= i < |ids| && ids[i] == id;
      assert batch[i].stolen;
    }
  }

  /** Reading back ends the call when nothing can be handed over, and hands the rest over otherwise. */
  lemma ReadsBack(k: Call, w: World, ids: seq<string>)
    requires Starts(k) && Taking(k, w, |k.ids|) && FitsWorker(k.c, w, ReadBack(k.token, ids, Fine))
    ensures var later := Reading(w, k.token, ids, Fine); Over(k, later) || HandingOver(k, later)
  {
    assert forall i :: 0 <= i < |ids| ==> ids[i] in Members(ids);
    assert k.ids[..|k.ids|] == k.ids;
    BatchRead(k, w, ids);
    var later := Reading(w, k.token, ids, Fine);
    assert later.flights - {k.token} == w.flights - {k.token};
    if k.token !in later.flights {
      assert Handed(k.w, k.ids) == {};
    }
  }

  lemma HandsOver(k: Call, w: World, results: seq<bool>)
    requires HandingOver(k, w) && AllTrue(results) == k.a.accepted
    ensures SettlingRest(k, Handing(w, k.token, results))
  {
    var later := Handing(w, k.token, results);
    assert later.flights - {k.token} == w.flights - {k.token};
    assert Handed(k.w, k.ids) - BatchIds(w.flights[k.token].rows) == {};
  }

  // ----- settling -----

  lemma RestOf(k: Call, batch: seq<Claimed>)
    requires BatchOf(k, batch) && batch != []
    ensures var id, rest := batch[0].id, BatchIds(batch[1..]);
      && BatchOf(k, batch[1..]) && id in Handed(k.w, k.ids) && id !in rest
      && Handed(k.w, k.ids) - rest == (Handed(k.w, k.ids) - BatchIds(batch)) + {id}
  {
    assert batch == [batch[0]] + batch[1..];
    assert BatchIds(batch) == {batch[0].id} + BatchIds(batch[1..]);
  }

  lemma BuriedNext(c: Settings, a: Answers, rows: Rows, resolved: set<string>, id: string)
    requires id in rows && id !in resolved
    ensures |Buried(c, a, rows, resolved + {id})|
         == |Buried(c, a, rows, resolved)| + CountIf(!a.accepted && Exhausted(c, rows[id]), 1)
  {
    var now := if !a.accepted && Exhausted(c, rows[id]) then {id} else {};
    assert Buried(c, a, rows, resolved + {id}) == Buried(c, a, rows, resolved) + now;
  }

  /** The first row of the batch is resolved, and no other changes. */
  lemma ResolvesOne(k: Call, w: World, now: int)
    requires Starts(k) && SettlingRest(k, w) && k.a.from <= now <= k.a.until
    ensures var id := w.flights[k.token].rows[0].id;
      var later := Resolving(k.c, w, k.token, now, Fine);
      && id in k.w.rows && Resolved(k.c, k.a, k.w.rows[id], Found(later.rows, id))
      && (forall other: string :: other != id ==> Found(later.rows, other) == Found(w.rows, other))
      && later.counters == w.counters.(
           deadLettered := w.counters.deadLettered + CountIf(!k.a.accepted && Exhausted(k.c, k.w.rows[id]), 1))
      && later.records == w.records && later.janitor == w.janitor
  {
    var batch := w.flights[k.token].rows;
    var id := batch[0].id;
    var handed := Handed(k.w, k.ids);
    assert id in handed && id in BatchIds(batch);
    assert Became(k.c, k.a, Claim(k.token, k.at), Found(k.w.rows, id), Found(w.rows, id), id in Members(k.ids), id in handed - BatchIds(batch));
  }

  lemma SettlesNext(k: Call, w: World, now: int)
    requires Starts(k) && SettlingRest(k, w) && k.a.from <= now <= k.a.until
    ensures var later := Resolving(k.c, w, k.token, now, Fine); SettlingRest(k, later) || Over(k, later)
  {
    var batch := w.flights[k.token].rows;
    var handed := Handed(k.w, k.ids);
    var later := Resolving(k.c, w, k.token, now, Fine);
    RestOf(k, batch);
    ResolvesOne(k, w, now);
    ResolvedStage(k, w, later, batch[0].id, handed - BatchIds(batch), now);
    PopsOne(w, k.token, batch);
    if batch[1..] == [] {
      assert handed - BatchIds(batch[1..]) == handed;
    }
  }

  lemma PopsOne(w: World, token: string, batch: seq<Claimed>)
    requires token in w.flights && w.flights[token].Settling? && w.flights[token].rows == batch && batch != []
    ensures var later := Popped(w.flights, token);
      && later - {token} == w.flights - {token}
      && (batch[1..] == [] ==> token !in later)
      && (batch[1..] != [] ==> token in later && later[token] == w.flights[token].(rows := batch[1..]))
  {}

  lemma ResolvedStage(k: Call, w: World, later: World, id: string, resolved: set<string>, now: int)
    requires Starts(k) && Stage(k, w, Members(k.ids), Handed(k.w, k.ids), resolved)
    requires id in k.w.rows && id !in resolved && Resolved(k.c, k.a, k.w.rows[id], Found(later.rows, id))
    requires forall other: string :: other != id ==> Found(later.rows, other) == Found(w.rows, other)
    requires later.counters == w.counters.(
      deadLettered := w.counters.deadLettered + CountIf(!k.a.accepted && Exhausted(k.c, k.w.rows[id]), 1))
    requires later.records == w.records && later.janitor == w.janitor && later.flights - {k.token} == w.flights - {k.token}
    ensures Stage(k, later, Members(k.ids), Handed(k.w, k.ids), resolved + {id})
  {
    BuriedNext(k.c, k.a, k.w.rows, resolved, id);
    forall other: string
      ensures Became(k.c, k.a, Claim(k.token, k.at), Found(k.w.rows, other), Found(later.rows, other), other in Members(k.ids), other in resolved + {id})
    {
      assert Became(k.c, k.a, Claim(k.token, k.at), Found(k.w.rows, other), Found(w.rows, other), other in Members(k.ids), other in resolved);
    }
  }

  // ----- whole calls -----

  lemma TakingStays(k: Call, w: World, n: nat, e: Event)
    requires Starts(k) && Taking(k, w, n) && Fits(k.c, w, e) && Works(k.token, k.a, e)
    ensures Underway(k, Step(k.c, w, e))
  {
    assert |w.flights[k.token].left| == |k.ids| - n;
    if n < |k.ids| {
      assert e == Cas(k.token, Fine);
      TakesNext(k, w, n);
    } else {
      assert e == ReadBack(k.token, e.ids, Fine);
      ReadsBack(k, w, e.ids);
    }
  }

  lemma BatchStays(k: Call, w: World, e: Event)
    requires Starts(k) && (HandingOver(k, w) || SettlingRest(k, w)) && Fits(k.c, w, e) && Works(k.token, k.a, e)
    ensures Underway(k, Step(k.c, w, e))
  {
    if HandingOver(k, w) {
      assert e == Deliver(k.token, e.results);
      HandsOver(k, w, e.results);
    } else {
      assert e == Settle(k.token, e.now, Fine);
      SettlesNext(k, w, e.now);
    }
  }

  /** One working statement of the call brings it from stage to stage. */
  lemma StaysUnderway(k: Call, w: World, e: Event)
    requires Starts(k) && Underway(k, w) && k.token in w.flights && Fits(k.c, w, e) && Works(k.token, k.a, e)
    ensures Underway(k, Step(k.c, w, e))
  {
    if n: nat :| Taking(k, w, n) {
      TakingStays(k, w, n, e);
    } else {
      BatchStays(k, w, e);
    }
  }

  /** The call's next statement needs the call to be there. */
  lemma {:induction false} EndsOver(k: Call, w: World, events: seq<Event>)
    requires Starts(k) && Underway(k, w) && Possible(k.c, w, events) && AllWork(k.token, k.a, events)
    requires k.token !in Final(k.c, w, events).flights
    ensures Over(k, Final(k.c, w, events))
    decreases events
  {
    if events != [] {
      assert Works(k.token, k.a, events[0]) && AllWork(k.token, k.a, events[1..]);
      StaysUnderway(k, w, events[0]);
      EndsOver(k, Step(k.c, w, events[0]), events[1..]);
    }
  }

  /**
   * A call that nothing disturbs takes exactly what it selected, resolves exactly what it could hand
   * over, by whether every sink accepted and by each row's attempts, and lets all of that go.
   */
  lemma DispatchesExactly(c: Settings, w: World, token: string, a: Answers, events: seq<Event>)
    requires AuditLeases.Tidy(w) && Possible(c, w, events) && WholeCall(c, w, token, a, events)
    ensures Dispatched(c, a, w, Final(c, w, events), token, events[0].at, events[0].ids)
  {
    var k := Call(c, a, w, token, events[0].now, events[0].at, events[0].ids);
    Begins(k);
    EndsOver(k, Step(c, w, events[0]), events[1..]);
    var later := Final(c, w, events);
    assert later.flights - {token} == later.flights;
  }
}
