/**
 * Who may take an obligation out of the queue: a settlement after every sink accepted a batch
 * holding it, or one of the janitor's deletes with its reason.
 */
module AuditRemovals {
  import opened Outcomes
  import opened AuditOutbox
  import opened AuditDelivery
  import opened AuditConservation

  // ----- what the sinks have accepted, by the events of the run -----

  /** Every sink returned nil for a batch holding the obligation. */
  predicate Accepts(c: Settings, w: World, e: Event, id: string)
    requires Fits(c, w, e)
  {
    e.Deliver? && (forall i :: 0 <= i < c.sinks ==> e.results[i]) && id in BatchIds(w.flights[e.token].rows)
  }

  predicate AcceptedIn(c: Settings, w: World, events: seq<Event>, id: string)
    requires Possible(c, w, events)
    decreases events
  {
    events != [] && (Accepts(c, w, events[0], id) || AcceptedIn(c, Step(c, w, events[0]), events[1..], id))
  }

  lemma StepAccepts(c: Settings, w: World, e: Event, id: string)
    requires Fits(c, w, e)
    ensures id in Step(c, w, e).ledger.acked <==> id in w.ledger.acked || Accepts(c, w, e, id)
  {}

  lemma {:induction false} AcceptedExactly(c: Settings, w: World, events: seq<Event>, id: string)
    requires Possible(c, w, events)
    ensures id in Final(c, w, events).ledger.acked <==> id in w.ledger.acked || AcceptedIn(c, w, events, id)
    decreases events
  {
    if events != [] {
      StepAccepts(c, w, events[0], id);
      AcceptedExactly(c, Step(c, w, events[0]), events[1..], id);
    }
  }

  // ----- what every state keeps -----

  /** Only batches that every sink accepted are being settled as delivered. */
  predicate VerdictsBacked(w: World) {
    forall token :: token in w.flights && w.flights[token].Settling? && w.flights[token].accepted ==>
      BatchIds(w.flights[token].rows) <= w.ledger.acked
  }

  /** The janitor's remaining victims are still what it selected them for. */
  predicate VictimsMeant(w: World) {
    && w.rows.Keys <= w.ledger.used
    && (w.janitor.SheddingDead? ==> forall i :: 0 <= i < |w.janitor.left| ==>
          w.janitor.left[i] in w.ledger.used && (w.janitor.left[i] in w.rows ==> w.rows[w.janitor.left[i]].deadAt.Some?))
    && (w.janitor.Purging? ==> forall i :: 0 <= i < |w.janitor.left| ==>
          w.janitor.left[i] in w.ledger.used && w.janitor.left[i] !in w.records)
  }

  lemma PoppedSmaller(flights: map<string, Flight>, token: string)
    requires token in flights && flights[token].Settling? && flights[token].rows != []
    ensures var later := Popped(flights, token);
      forall other :: other in later ==>
        && other in flights && (later[other] == flights[other] || other == token)
        && (other == token ==> later[token].Settling? && later[token].accepted == flights[token].accepted
                               && BatchIds(later[token].rows) <= BatchIds(flights[token].rows))
  {
    var rows := flights[token].rows;
    assert forall i :: 0 <= i < |rows[1..]| ==> rows[1..][i] == rows[i + 1];
  }

  lemma WorkerKeepsVerdicts(c: Settings, w: World, e: Event)
    requires VerdictsBacked(w) && FitsWorker(c, w, e)
    ensures VerdictsBacked(WorkerStep(c, w, e))
  {
    if e.Settle? {
      PoppedSmaller(w.flights, e.token);
    }
  }

  lemma StepKeepsVerdicts(c: Settings, w: World, e: Event)
    requires VerdictsBacked(w) && Fits(c, w, e)
    ensures VerdictsBacked(Step(c, w, e))
  {
    if FitsWorker(c, w, e) {
      WorkerKeepsVerdicts(c, w, e);
    }
  }

  lemma ResolvingKeepsVictims(c: Settings, w: World, token: string, now: int, fault: Fault)
    requires VictimsMeant(w) && Fits(c, w, Settle(token, now, fault))
    ensures VictimsMeant(Resolving(c, w, token, now, fault))
  {}

  lemma WorkerKeepsVictims(c: Settings, w: World, e: Event)
    requires VictimsMeant(w) && FitsWorker(c, w, e)
    ensures VictimsMeant(WorkerStep(c, w, e))
  {
    if e.Settle? {
      ResolvingKeepsVictims(c, w, e.token, e.now, e.fault);
    }
  }

  lemma JanitorKeepsVictims(c: Settings, w: World, e: Event)
    requires VictimsMeant(w) && FitsJanitor(c, w, e)
    ensures VictimsMeant(JanitorStep(c, w, e))
  {
    if e.SelectDead? && e.readable {
      assert forall i :: 0 <= i < |e.ids| ==> e.ids[i] in Members(e.ids);
    }
  }

  lemma StepKeepsVictims(c: Settings, w: World, e: Event)
    requires VictimsMeant(w) && Fits(c, w, e)
    ensures VictimsMeant(Step(c, w, e))
  {
    if ByJanitor(e) {
      JanitorKeepsVictims(c, w, e);
    } else if FitsWorker(c, w, e) {
      WorkerKeepsVictims(c, w, e);
    }
  }

  lemma {:induction false} RunKeepsMeaning(c: Settings, w: World, events: seq<Event>)
    requires VerdictsBacked(w) && VictimsMeant(w) && Possible(c, w, events)
    ensures VerdictsBacked(Final(c, w, events)) && VictimsMeant(Final(c, w, events))
    decreases events
  {
    if events != [] {
      StepKeepsVerdicts(c, w, events[0]);
      StepKeepsVictims(c, w, events[0]);
      RunKeepsMeaning(c, Step(c, w, events[0]), events[1..]);
    }
  }

  // ----- every removal has its reason -----

  /** The janitor's reasons: over an age limit, over the cap (dead letters first), or without a record. */
  predicate JanitorRemoves(c: Settings, w: World, e: Event, id: string)
    requires id in w.rows
  {
    || (e.DeleteExpired? && w.janitor.Sweeping?
        && (PendingLapsed(w.rows[id], w.janitor.now, c.maxAge) || DeadLapsed(w.rows[id], w.janitor.now, c.deadLetterTtl)))
    || (e.Shed? && w.janitor.SheddingDead? && w.rows[id].deadAt.Some?)
    || (e.Shed? && w.janitor.SheddingOldest?)
    || (e.PurgeNext? && id !in w.records)
  }

  lemma WorkerRemoves(c: Settings, w: World, e: Event, id: string)
    requires VerdictsBacked(w) && FitsWorker(c, w, e) && id in w.rows && id !in WorkerStep(c, w, e).rows
    ensures e.Settle? && id in w.ledger.acked
  {
    if e.Settle? {
      var f := w.flights[e.token];
      assert f.rows[0].id in BatchIds(f.rows);
    }
  }

  lemma JanitorReasons(c: Settings, w: World, e: Event, id: string)
    requires VictimsMeant(w) && FitsJanitor(c, w, e) && id in w.rows && id !in JanitorStep(c, w, e).rows
    ensures JanitorRemoves(c, w, e, id)
  {}

  /**
   * On every run, an obligation leaves the queue only by a settlement after an event of that run in
   * which every sink accepted a batch holding it, or by the janitor and for its reason.
   */
  lemma RemovedOnlyAfterDelivery(c: Settings, events: seq<Event>, e: Event, id: string)
    requires Possible(c, Start(), events) && Fits(c, Final(c, Start(), events), e)
    requires var w := Final(c, Start(), events); id in w.rows && id !in Step(c, w, e).rows
    ensures (e.Settle? && AcceptedIn(c, Start(), events, id)) || JanitorRemoves(c, Final(c, Start(), events), e, id)
  {
    var w := Final(c, Start(), events);
    RunKeepsMeaning(c, Start(), events);
    if ByJanitor(e) {
      JanitorReasons(c, w, e, id);
    } else {
      WorkerRemoves(c, w, e, id);
      AcceptedExactly(c, Start(), events, id);
    }
  }

  // ----- orphans delivered under the purge -----

  /** A settlement that deletes the row as delivered. */
  predicate Delivers(c: Settings, w: World, e: Event, id: string)
    requires Fits(c, w, e)
  {
    e.Settle? && TakesEffect(e.fault) && w.flights[e.token].accepted && w.flights[e.token].rows[0].id == id
  }

  predicate DeliveredIn(c: Settings, w: World, events: seq<Event>, id: string)
    requires Possible(c, w, events)
    decreases events
  {
    events != [] && (Delivers(c, w, events[0], id) || DeliveredIn(c, Step(c, w, events[0]), events[1..], id))
  }

  /** The purge goes through its list, and the row's turn has not come. */
  predicate BeforeTurn(c: Settings, w: World, events: seq<Event>, id: string)
    requires Possible(c, w, events)
    decreases events
  {
    w.janitor.Purging? &&
    (events == [] ||
     ((events[0].PurgeNext? ==> w.janitor.left[0] != id) && BeforeTurn(c, Step(c, w, events[0]), events[1..], id)))
  }

  lemma StepBeforeTurn(c: Settings, w: World, e: Event, id: string)
    requires w.rows.Keys <= w.ledger.used && w.janitor.Purging? && Fits(c, w, e) && id in w.ledger.used
    requires e.PurgeNext? ==> w.janitor.left[0] != id
    ensures var later := Step(c, w, e);
      && later.rows.Keys <= later.ledger.used && id in later.ledger.used
      && (id in later.rows <==> id in w.rows && !Delivers(c, w, e, id))
  {}

  lemma {:induction false} WaitingForTurn(c: Settings, w: World, events: seq<Event>, id: string)
    requires w.rows.Keys <= w.ledger.used && id in w.ledger.used && Possible(c, w, events) && BeforeTurn(c, w, events, id)
    ensures id in Final(c, w, events).rows <==> id in w.rows && !DeliveredIn(c, w, events, id)
    decreases events
  {
    if events != [] {
      StepBeforeTurn(c, w, events[0], id);
      WaitingForTurn(c, Step(c, w, events[0]), events[1..], id);
    }
  }

  /**
   * A purge counts an orphan that is already gone exactly when a worker delivered the row between
   * the purge's selection and the row's turn.
   */
  lemma PurgeRaceExactly(c: Settings, w: World, ids: seq<string>, limit: nat, between: seq<Event>, id: string)
    requires w.rows.Keys <= w.ledger.used && w.janitor.Resting? && AreOrphans(w.rows, w.records, ids, limit) && id in ids
    requires var selected := Step(c, w, SelectOrphans(ids, limit, true));
      && Possible(c, selected, between) && BeforeTurn(c, selected, between, id)
      && var j := Final(c, selected, between).janitor; j.Purging? && j.left != [] && j.left[0] == id
    ensures var selected := Step(c, w, SelectOrphans(ids, limit, true));
      var later := Final(c, selected, between);
      Step(c, later, PurgeNext(Fine)).janitor.absent == later.janitor.absent + CountIf(DeliveredIn(c, selected, between, id), 1)
  {
    WaitingForTurn(c, Step(c, w, SelectOrphans(ids, limit, true)), between, id);
  }
}
