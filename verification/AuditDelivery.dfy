/**
 * Delivery of audit obligations as a state machine (audit/dispatcher.go): calls claim batches,
 * hand them to the sinks and settle the rows one by one, while the janitor counts, deletes and
 * purges. One step is one statement, so everything else may happen between any two of them, and
 * any statement may fail. One process, any number of workers, one janitor.
 */
module AuditDelivery {
  import opened Outcomes
  import opened AuditOutbox
  import AuditClocks

  datatype Settings = Settings(
    sinks: nat, maxAttempts: int, batchSize: nat, lease: int, maxAge: int, deadLetterTtl: int, maxRows: int)

  datatype Counters = Counters(deadLettered: nat, dropped: nat, pendingDropped: nat, orphaned: nat, duplicated: nat)

  /** A row the candidate query returned, and whether it carried a claim then. */
  datatype Candidate = Candidate(id: string, claimed: bool)

  /** A row read back with its record. */
  datatype Claimed = Claimed(id: string, attempts: nat, stolen: bool)

  /** One ClaimBatch call and what its worker then does with the batch; `at` is the time written into its claims. */
  datatype Flight =
    | Claiming(at: int, cutoff: int, left: seq<Candidate>, won: map<string, bool>)
    | Delivering(at: int, rows: seq<Claimed>)
    | Settling(at: int, rows: seq<Claimed>, accepted: bool)

  /**
   * The janitor between two statements: a sweep that has counted, an eviction on its way with the
   * rows it has deleted and counted so far, or an orphan purge with what it deleted and what it
   * counted without finding.
   */
  datatype Janitor =
    | Resting
    | Sweeping(now: int, pending: set<string>, dead: set<string>)
    | Overfull(overflow: nat)
    | SheddingDead(overflow: nat, left: seq<string>, deadShed: nat)
    | SheddingOldest(left: seq<string>, deadShed: nat, pendingShed: nat)
    | Purging(left: seq<string>, removed: nat, absent: nat)

  /**
   * What the counters should account for: obligations inserted and delivered, dead letters counted
   * as dropped, rows counted as pending but not as dropped, rows removed that no counter will ever
   * include, rows counted that were not removed; the claims taken over from another call,
   * identifiers every sink has accepted, and identifiers and tokens used so far.
   */
  datatype Ledger = Ledger(inserted: nat, delivered: nat, deadCounted: nat, misreported: nat, leaked: nat, overcounted: nat,
                           steals: nat, acked: set<string>, used: set<string>, tokens: set<string>)

  datatype World = World(rows: Rows, records: set<string>, flights: map<string, Flight>, janitor: Janitor,
                         counters: Counters, ledger: Ledger)

  datatype Event =
    | Enqueue(id: string, priority: int, now: int)
    | Select(token: string, now: int, at: int, ids: seq<string>)
    | Cas(token: string, fault: Fault)
    | ReadBack(token: string, ids: seq<string>, fault: Fault)
    | Deliver(token: string, results: seq<bool>)
    | Settle(token: string, now: int, fault: Fault)
    | Crash(token: string)
    | CountExpired(now: int, readable: bool)
    | DeleteExpired(fault: Fault)
    | CountRows(readable: bool)
    | SelectDead(ids: seq<string>, readable: bool)
    | SelectOldest(ids: seq<string>, readable: bool)
    | Shed(fault: Fault, known: bool)
    | EndEviction
    | SelectOrphans(ids: seq<string>, limit: nat, readable: bool)
    | PurgeNext(fault: Fault)
    | EndPurge
    | Cleanup(gone: set<string>)

  // ----- which step can come next -----

  predicate FitsWorker(c: Settings, w: World, e: Event) {
    match e
    case Select(token, now, at, ids) =>
      token !in w.ledger.tokens && now <= at && AreCandidates(w.rows, ids, now, now - c.lease, c.batchSize)
    case Cas(token, _) => token in w.flights && w.flights[token].Claiming? && w.flights[token].left != []
    case ReadBack(token, ids, _) =>
      && token in w.flights && w.flights[token].Claiming? && w.flights[token].left == []
      && Distinct(ids) && Members(ids) == Owned(w.rows, w.records, token)
    case Deliver(token, results) => token in w.flights && w.flights[token].Delivering? && |results| == c.sinks
    case Settle(token, _, _) => token in w.flights && w.flights[token].Settling? && w.flights[token].rows != []
    case Crash(token) => token in w.flights
    case _ => false
  }

  predicate FitsJanitor(c: Settings, w: World, e: Event) {
    match e
    case CountExpired(_, _) => w.janitor.Resting?
    case DeleteExpired(_) => w.janitor.Sweeping?
    case CountRows(_) => w.janitor.Resting?
    case SelectDead(ids, readable) =>
      w.janitor.Overfull? && (readable ==> Oldest(w.rows, DeadIds(w.rows), ids, w.janitor.overflow, DeadAge))
    case SelectOldest(ids, readable) =>
      && w.janitor.SheddingDead? && w.janitor.left == [] && w.janitor.overflow > w.janitor.deadShed
      && (readable ==> Oldest(w.rows, w.rows.Keys, ids, w.janitor.overflow - w.janitor.deadShed, Age))
    case Shed(_, _) => (w.janitor.SheddingDead? || w.janitor.SheddingOldest?) && w.janitor.left != []
    case EndEviction =>
      || (w.janitor.SheddingDead? && w.janitor.left == [] && w.janitor.overflow <= w.janitor.deadShed)
      || (w.janitor.SheddingOldest? && w.janitor.left == [])
    case SelectOrphans(ids, limit, readable) => w.janitor.Resting? && (readable ==> AreOrphans(w.rows, w.records, ids, limit))
    case PurgeNext(_) => w.janitor.Purging? && w.janitor.left != []
    case EndPurge => w.janitor.Purging? && w.janitor.left == []
    case _ => false
  }

  predicate Fits(c: Settings, w: World, e: Event) {
    || (e.Enqueue? && e.id !in w.ledger.used)
    || e.Cleanup?
    || FitsWorker(c, w, e)
    || FitsJanitor(c, w, e)
  }

  predicate ByJanitor(e: Event) {
    || e.CountExpired? || e.DeleteExpired? || e.CountRows? || e.SelectDead? || e.SelectOldest? || e.Shed? || e.EndEviction?
    || e.SelectOrphans? || e.PurgeNext? || e.EndPurge?
  }

  function CountIf(b: bool, n: nat): nat { if b then n else 0 }

  function Enqueued(w: World, id: string, priority: int, now: int): World {
    w.(rows := w.rows[id := Row(priority, 0, now, None, now, None)], records := w.records + {id},
       ledger := w.ledger.(inserted := w.ledger.inserted + 1, used := w.ledger.used + {id}))
  }

  // ----- one batch -----

  function Candidates(rows: Rows, ids: seq<string>): seq<Candidate>
    requires forall i :: 0 <= i < |ids| ==> ids[i] in rows
  {
    seq(|ids|, i requires 0 <= i < |ids| => Candidate(ids[i], rows[ids[i]].claim.Some?))
  }

  function Selected(c: Settings, w: World, token: string, now: int, at: int, ids: seq<string>): World
    requires FitsWorker(c, w, Select(token, now, at, ids))
  {
    w.(flights := w.flights[token := Claiming(at, now - c.lease, Candidates(w.rows, ids), map[])],
       ledger := w.ledger.(tokens := w.ledger.tokens + {token}))
  }

  /** The guarded update of the next candidate. An error ends the call and keeps the claims it made. */
  function Casing(w: World, token: string, fault: Fault): World
    requires token in w.flights && w.flights[token].Claiming? && w.flights[token].left != []
  {
    var f := w.flights[token];
    var next := f.left[0];
    var claim := Claim(token, f.at);
    var takes := Takes(w.rows, next.id, claim, f.cutoff);
    var later := if takes && TakesEffect(fault) then Winning(w, next.id, claim) else w;
    if fault.Lost? then later.(flights := w.flights - {token})
    else
      var won := if takes then f.won[next.id := next.claimed] else f.won;
      later.(flights := w.flights[token := f.(left := f.left[1..], won := won)])
  }

  /** The row in the hands of this claim; a claim it already carried is taken over. */
  function Winning(w: World, id: string, claim: Claim): World
    requires id in w.rows
  {
    w.(rows := Taken(w.rows, id, claim),
       ledger := w.ledger.(steals := w.ledger.steals + CountIf(w.rows[id].claim.Some?, 1)))
  }

  function Batch(rows: Rows, ids: seq<string>, won: map<string, bool>): seq<Claimed>
    requires forall i :: 0 <= i < |ids| ==> ids[i] in rows
  {
    seq(|ids|, i requires 0 <= i < |ids| => Claimed(ids[i], rows[ids[i]].attempts, ids[i] in won && won[ids[i]]))
  }

  predicate AnyStolen(batch: seq<Claimed>) { exists i :: 0 <= i < |batch| && batch[i].stolen }

  function BatchIds(batch: seq<Claimed>): set<string> { set i | 0 <= i < |batch| :: batch[i].id }

  /** The rows that carry the token are read back with their records; none are looked for when none were won. */
  function Reading(w: World, token: string, ids: seq<string>, fault: Fault): World
    requires token in w.flights && w.flights[token].Claiming?
    requires Members(ids) == Owned(w.rows, w.records, token)
  {
    var f := w.flights[token];
    assert forall i :: 0 <= i < |ids| ==> ids[i] in Members(ids);
    var batch := Batch(w.rows, ids, f.won);
    if fault.Lost? || f.won == map[] || batch == [] then w.(flights := w.flights - {token})
    else
      w.(flights := w.flights[token := Delivering(f.at, batch)],
         counters := w.counters.(duplicated := w.counters.duplicated + CountIf(AnyStolen(batch), 1)))
  }

  predicate AllTrue(results: seq<bool>) { forall i :: 0 <= i < |results| ==> results[i] }

  function Handing(w: World, token: string, results: seq<bool>): World
    requires token in w.flights && w.flights[token].Delivering?
  {
    var f := w.flights[token];
    w.(flights := w.flights[token := Settling(f.at, f.rows, AllTrue(results))],
       ledger := if AllTrue(results) then w.ledger.(acked := w.ledger.acked + BatchIds(f.rows)) else w.ledger)
  }

  /** The flight without its first row; nothing when that was its last. */
  function Popped(flights: map<string, Flight>, token: string): map<string, Flight>
    requires token in flights && flights[token].Settling? && flights[token].rows != []
  {
    var rest := flights[token].rows[1..];
    if rest == [] then flights - {token} else flights[token := flights[token].(rows := rest)]
  }

  /** One row of a delivered batch: success deletes it, failure backs off or dead-letters it. */
  function Resolving(c: Settings, w: World, token: string, now: int, fault: Fault): World
    requires token in w.flights && w.flights[token].Settling? && w.flights[token].rows != []
  {
    var row := w.flights[token].rows[0];
    var later := w.(flights := Popped(w.flights, token));
    if w.flights[token].accepted then
      if TakesEffect(fault) then
        later.(rows := Succeeded(w.rows, row.id),
               ledger := w.ledger.(delivered := w.ledger.delivered + CountIf(row.id in w.rows, 1)))
      else later
    else if row.attempts >= c.maxAttempts then
      later.(rows := if TakesEffect(fault) then DeadLettered(w.rows, row.id, now) else w.rows,
             counters := w.counters.(deadLettered := w.counters.deadLettered + CountIf(fault.Fine?, 1)))
    else
      later.(rows := if TakesEffect(fault) then Failed(w.rows, row.id, now + AuditClocks.Backoff(row.attempts)) else w.rows)
  }

  function WorkerStep(c: Settings, w: World, e: Event): World
    requires FitsWorker(c, w, e)
  {
    match e
    case Select(token, now, at, ids) => Selected(c, w, token, now, at, ids)
    case Cas(token, fault) => Casing(w, token, fault)
    case ReadBack(token, ids, fault) => Reading(w, token, ids, fault)
    case Deliver(token, results) => Handing(w, token, results)
    case Settle(token, now, fault) => Resolving(c, w, token, now, fault)
    case Crash(token) => w.(flights := w.flights - {token})
  }

  // ----- the sweep -----

  function Counting(c: Settings, w: World, now: int, readable: bool): World {
    var pending, dead := PendingExpired(w.rows, now, c.maxAge), DeadExpired(w.rows, now, c.deadLetterTtl);
    if !readable || pending + dead == {} then w else w.(janitor := Janitor.Sweeping(now, pending, dead))
  }

  function FineDeleted(c: Settings, w: World): World
    requires w.janitor.Sweeping?
  {
    var counted := w.janitor.pending + w.janitor.dead;
    var gone := Expired(w.rows, w.janitor.now, c.maxAge, c.deadLetterTtl);
    w.(rows := w.rows - gone, janitor := Resting,
       counters := Dropping(w.counters, |w.janitor.dead| + |w.janitor.pending|, |w.janitor.pending|),
       ledger := Reckoned(w.ledger, |w.janitor.dead|, counted, gone))
  }

  function LostDeleted(c: Settings, w: World, applied: bool): World
    requires w.janitor.Sweeping?
  {
    var gone := if applied then Expired(w.rows, w.janitor.now, c.maxAge, c.deadLetterTtl) else {};
    w.(rows := w.rows - gone, janitor := Resting, ledger := w.ledger.(leaked := w.ledger.leaked + |gone|))
  }

  /** What was counted is reported, whatever the DELETE then removes; a failed DELETE reports nothing. */
  function Deleting(c: Settings, w: World, fault: Fault): World
    requires w.janitor.Sweeping?
  {
    if fault.Fine? then FineDeleted(c, w) else LostDeleted(c, w, fault.applied)
  }

  /** Rows deleted without having been counted, and rows counted and not deleted. */
  function Reckoned(ledger: Ledger, dead: nat, counted: set<string>, gone: set<string>): Ledger {
    ledger.(deadCounted := ledger.deadCounted + dead, leaked := ledger.leaked + |gone - counted|,
            overcounted := ledger.overcounted + |counted - gone|)
  }

  function Dropping(counters: Counters, dropped: nat, pending: nat): Counters {
    counters.(dropped := counters.dropped + dropped, pendingDropped := counters.pendingDropped + pending)
  }

  // ----- the emergency valve -----

  function Measuring(c: Settings, w: World, readable: bool): World {
    if c.maxRows <= 0 || !readable || |w.rows| <= c.maxRows then w else w.(janitor := Overfull(|w.rows| - c.maxRows))
  }

  /** The end of an eviction, with the counts it returns. */
  function Evicted(w: World, deadShed: nat, evicted: nat, pendingEvicted: nat): World
    requires evicted <= deadShed + pendingEvicted
  {
    w.(janitor := Resting, counters := Dropping(w.counters, evicted, pendingEvicted),
       ledger := w.ledger.(deadCounted := w.ledger.deadCounted + deadShed,
                           misreported := w.ledger.misreported + (deadShed + pendingEvicted - evicted)))
  }

  /** The next victim. An error ends the eviction with the counts so far, of which the first leaves out the pending rows. */
  function Shedding(w: World, fault: Fault, known: bool): World
    requires (w.janitor.SheddingDead? || w.janitor.SheddingOldest?) && w.janitor.left != []
  {
    var id := w.janitor.left[0];
    var removes := TakesEffect(fault) && id in w.rows;
    var counts := CountIf(removes && fault.Fine? && known, 1);
    var later := w.(rows := if removes then w.rows - {id} else w.rows,
                    ledger := w.ledger.(leaked := w.ledger.leaked + CountIf(removes, 1) - counts));
    if w.janitor.SheddingDead? then
      if fault.Lost? then Evicted(later, w.janitor.deadShed, w.janitor.deadShed, 0)
      else later.(janitor := SheddingDead(w.janitor.overflow, w.janitor.left[1..], w.janitor.deadShed + counts))
    else
      if fault.Lost? then
        var halted := Evicted(later, w.janitor.deadShed, w.janitor.deadShed, w.janitor.pendingShed);
        halted.(ledger := halted.ledger.(leaked := halted.ledger.leaked + w.janitor.pendingShed))
      else later.(janitor := SheddingOldest(w.janitor.left[1..], w.janitor.deadShed, w.janitor.pendingShed + counts))
  }

  function EndingEviction(w: World): World
    requires w.janitor.SheddingDead? || w.janitor.SheddingOldest?
  {
    var pendingShed := if w.janitor.SheddingOldest? then w.janitor.pendingShed else 0;
    Evicted(w, w.janitor.deadShed, w.janitor.deadShed + pendingShed, pendingShed)
  }

  // ----- orphans -----

  /** The next orphan: counted whether or not it is still there. An error discards the count. */
  function PurgingNext(w: World, fault: Fault): World
    requires w.janitor.Purging? && w.janitor.left != []
  {
    var id := w.janitor.left[0];
    var removes := CountIf(TakesEffect(fault) && id in w.rows, 1);
    var later := w.(rows := if TakesEffect(fault) then w.rows - {id} else w.rows);
    if fault.Lost? then
      later.(janitor := Resting, ledger := w.ledger.(leaked := w.ledger.leaked + w.janitor.removed + removes))
    else
      later.(janitor := Purging(w.janitor.left[1..], w.janitor.removed + removes, w.janitor.absent + 1 - removes))
  }

  function EndingPurge(w: World): World
    requires w.janitor.Purging?
  {
    w.(janitor := Resting, counters := w.counters.(orphaned := w.counters.orphaned + w.janitor.removed + w.janitor.absent),
       ledger := w.ledger.(overcounted := w.ledger.overcounted + w.janitor.absent))
  }

  function JanitorStep(c: Settings, w: World, e: Event): World
    requires FitsJanitor(c, w, e)
  {
    match e
    case CountExpired(now, readable) => Counting(c, w, now, readable)
    case DeleteExpired(fault) => Deleting(c, w, fault)
    case CountRows(readable) => Measuring(c, w, readable)
    case SelectDead(ids, readable) => w.(janitor := if readable then SheddingDead(w.janitor.overflow, ids, 0) else Resting)
    case SelectOldest(ids, readable) =>
      if readable then w.(janitor := SheddingOldest(ids, w.janitor.deadShed, 0)) else Evicted(w, w.janitor.deadShed, w.janitor.deadShed, 0)
    case Shed(fault, known) => Shedding(w, fault, known)
    case EndEviction => EndingEviction(w)
    case SelectOrphans(ids, _, readable) => if readable then w.(janitor := Purging(ids, 0, 0)) else w
    case PurgeNext(fault) => PurgingNext(w, fault)
    case EndPurge => EndingPurge(w)
  }

  // ----- runs -----

  function Step(c: Settings, w: World, e: Event): World
    requires Fits(c, w, e)
  {
    if e.Enqueue? then Enqueued(w, e.id, e.priority, e.now)
    else if e.Cleanup? then w.(records := w.records - e.gone)
    else if ByJanitor(e) then JanitorStep(c, w, e)
    else WorkerStep(c, w, e)
  }

  predicate Possible(c: Settings, w: World, events: seq<Event>)
    decreases events
  {
    events != [] ==> Fits(c, w, events[0]) && Possible(c, Step(c, w, events[0]), events[1..])
  }

  function Final(c: Settings, w: World, events: seq<Event>): World
    requires Possible(c, w, events)
    decreases events
  {
    if events == [] then w else Final(c, Step(c, w, events[0]), events[1..])
  }

  function Start(): World {
    World(map[], {}, map[], Resting, Counters(0, 0, 0, 0, 0), Ledger(0, 0, 0, 0, 0, 0, 0, {}, {}, {}))
  }

  // ----- runs in parts -----

  lemma RunCons(c: Settings, w: World, e: Event, rest: seq<Event>)
    requires Fits(c, w, e)
    ensures Possible(c, w, [e] + rest) <==> Possible(c, Step(c, w, e), rest)
    ensures Possible(c, w, [e] + rest) ==> Final(c, w, [e] + rest) == Final(c, Step(c, w, e), rest)
  {
    assert ([e] + rest)[1..] == rest;
  }

  lemma {:induction false} RunAppend(c: Settings, w: World, first: seq<Event>, rest: seq<Event>)
    requires Possible(c, w, first)
    ensures Possible(c, w, first + rest) <==> Possible(c, Final(c, w, first), rest)
    ensures Possible(c, w, first + rest) ==> Final(c, w, first + rest) == Final(c, Final(c, w, first), rest)
    decreases first
  {
    if first == [] {
      assert first + rest == rest;
    } else {
      assert first == [first[0]] + first[1..] && first + rest == [first[0]] + (first[1..] + rest);
      RunCons(c, w, first[0], first[1..]);
      RunCons(c, w, first[0], first[1..] + rest);
      RunAppend(c, Step(c, w, first[0]), first[1..], rest);
    }
  }
}
