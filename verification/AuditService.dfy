/**
 * The dispatcher and the janitor as they run (audit/dispatcher.go, over the SQL store): a service
 * object whose queue and counters change in place. Between any two statements everybody else may
 * act. Each method takes exactly the steps of AuditDelivery.
 */
module AuditService {
  import opened Outcomes
  import opened AuditOutbox
  import opened AuditDelivery
  import opened AuditConservation
  import opened AuditUndisturbed
  import opened AuditCalls
  import AuditClocks
  import AuditLeases

  /**
   * Everything outside one goroutine, as functions of the state: what the others do before its next
   * statement, how that statement fares, what its query returns, what the sinks answer and the clock.
   */
  datatype Environment = Environment(
    others: World -> seq<Event>, fault: World -> Fault, readable: World -> bool, known: World -> bool,
    ids: World -> seq<string>, results: World -> seq<bool>, now: World -> int)

  predicate Mine(token: string, e: Event) {
    match e
    case Select(t, _, _, _) => t == token
    case Cas(t, _) => t == token
    case ReadBack(t, _, _) => t == token
    case Deliver(t, _) => t == token
    case Settle(t, _, _) => t == token
    case Crash(t) => t == token
    case _ => false
  }

  // ----- one call among others -----

  /** The others leave the call alone, and its queries return what they ask for. */
  ghost predicate FairTo(c: Settings, env: Environment, token: string) {
    && (forall w: World :: Possible(c, w, env.others(w)) && forall i :: 0 <= i < |env.others(w)| ==> !Mine(token, env.others(w)[i]))
    && (forall w: World :: Distinct(env.ids(w)) && Members(env.ids(w)) == Owned(w.rows, w.records, token))
    && (forall w: World :: |env.results(w)| == c.sinks)
  }

  lemma {:induction false} OthersLeaveFlight(c: Settings, w: World, events: seq<Event>, token: string)
    requires Possible(c, w, events) && forall i :: 0 <= i < |events| ==> !Mine(token, events[i])
    ensures var later := Final(c, w, events);
      (token in later.flights <==> token in w.flights) && (token in w.flights ==> later.flights[token] == w.flights[token])
    decreases events
  {
    if events != [] {
      LeavesFlight(c, w, events[0], token);
      OthersLeaveFlight(c, Step(c, w, events[0]), events[1..], token);
    }
  }

  lemma LeavesFlight(c: Settings, w: World, e: Event, token: string)
    requires Fits(c, w, e) && !Mine(token, e)
    ensures var later := Step(c, w, e);
      (token in later.flights <==> token in w.flights) && (token in w.flights ==> later.flights[token] == w.flights[token])
  {
    if ByJanitor(e) {
      AuditLeases.JanitorOnlyRemoves(c, w, e);
    }
  }

  function NextOf(env: Environment, w: World, token: string): Event
    requires token in w.flights
  {
    match w.flights[token]
    case Claiming(_, _, left, _) => if left != [] then Cas(token, env.fault(w)) else ReadBack(token, env.ids(w), env.fault(w))
    case Delivering(_, _) => Deliver(token, env.results(w))
    case Settling(_, _, _) => Settle(token, env.now(w), env.fault(w))
  }

  /** The state in which the call takes its next statement. */
  ghost function Turn(c: Settings, env: Environment, w: World): World
    requires Possible(c, w, env.others(w))
  {
    Final(c, w, env.others(w))
  }

  /** Batches are never empty while they are being settled. */
  predicate NonEmpty(w: World, token: string) { token in w.flights && w.flights[token].Settling? ==> w.flights[token].rows != [] }

  function Phase(w: World, token: string): nat {
    if token !in w.flights then 0
    else match w.flights[token] case Claiming(_, _, _, _) => 3 case Delivering(_, _) => 2 case Settling(_, _, _) => 1
  }

  function Length(w: World, token: string): nat {
    if token !in w.flights then 0
    else match w.flights[token] case Claiming(_, _, left, _) => |left| case Delivering(_, rows) => |rows| case Settling(_, rows, _) => |rows|
  }

  predicate Shorter(w: World, later: World, token: string) {
    Phase(later, token) < Phase(w, token) || (Phase(later, token) == Phase(w, token) && Length(later, token) < Length(w, token))
  }

  /** A flight that is being handed over is not empty either. */
  predicate Loaded(w: World, token: string) { NonEmpty(w, token) && (token in w.flights && w.flights[token].Delivering? ==> w.flights[token].rows != []) }

  lemma StatementFits(c: Settings, env: Environment, w: World, token: string)
    requires FairTo(c, env, token) && token in w.flights && Loaded(w, token)
    ensures Fits(c, w, NextOf(env, w, token))
    ensures var later := Step(c, w, NextOf(env, w, token)); Shorter(w, later, token) && Loaded(later, token)
  {}

  /** The rest of a call: one statement after the other, with the others in between. */
  ghost function Flown(c: Settings, env: Environment, w: World, token: string): World
    requires FairTo(c, env, token) && Loaded(w, token)
    decreases Phase(w, token), Length(w, token)
  {
    if token !in w.flights then w
    else
      OthersLeaveFlight(c, w, env.others(w), token);
      var before := Turn(c, env, w);
      StatementFits(c, env, before, token);
      Flown(c, env, Step(c, before, NextOf(env, before, token)), token)
  }

  /** It is a run of the machine. */
  lemma {:induction false} FlownIsRun(c: Settings, env: Environment, w: World, token: string) returns (events: seq<Event>)
    requires FairTo(c, env, token) && Loaded(w, token)
    ensures Possible(c, w, events) && Final(c, w, events) == Flown(c, env, w, token)
    decreases Phase(w, token), Length(w, token)
  {
    if token !in w.flights {
      events := [];
    } else {
      OthersLeaveFlight(c, w, env.others(w), token);
      var before := Turn(c, env, w);
      StatementFits(c, env, before, token);
      var e := NextOf(env, before, token);
      var rest := FlownIsRun(c, env, Step(c, before, e), token);
      RunCons(c, before, e, rest);
      RunAppend(c, w, env.others(w), [e] + rest);
      events := env.others(w) + ([e] + rest);
    }
  }

  // ----- the janitor among others -----

  /** The others are not the janitor, and its queries return what they ask for. */
  ghost predicate FairToJanitor(c: Settings, env: Environment) {
    && (forall w: World :: Possible(c, w, env.others(w)) && forall i :: 0 <= i < |env.others(w)| ==> !ByJanitor(env.others(w)[i]))
    && (forall w: World :: w.janitor.Overfull? ==> Oldest(w.rows, DeadIds(w.rows), env.ids(w), w.janitor.overflow, DeadAge))
    && (forall w: World :: w.janitor.SheddingDead? && w.janitor.overflow > w.janitor.deadShed ==>
          Oldest(w.rows, w.rows.Keys, env.ids(w), w.janitor.overflow - w.janitor.deadShed, Age))
  }

  lemma {:induction false} OthersLeaveJanitor(c: Settings, w: World, events: seq<Event>)
    requires Possible(c, w, events) && forall i :: 0 <= i < |events| ==> !ByJanitor(events[i])
    ensures Final(c, w, events).janitor == w.janitor
    decreases events
  {
    if events != [] {
      NotTheJanitor(c, w, events[0]);
      OthersLeaveJanitor(c, Step(c, w, events[0]), events[1..]);
    }
  }

  function NextJanitor(env: Environment, w: World): Event
    requires !w.janitor.Resting?
  {
    match w.janitor
    case Sweeping(_, _, _) => DeleteExpired(env.fault(w))
    case Overfull(_) => SelectDead(env.ids(w), env.readable(w))
    case SheddingDead(overflow, left, deadShed) =>
      if left != [] then Shed(env.fault(w), env.known(w))
      else if overflow > deadShed then SelectOldest(env.ids(w), env.readable(w))
      else EndEviction
    case SheddingOldest(left, _, _) => if left != [] then Shed(env.fault(w), env.known(w)) else EndEviction
    case Purging(left, _, _) => if left != [] then PurgeNext(env.fault(w)) else EndPurge
  }

  function JanitorPhase(j: Janitor): nat {
    match j case Overfull(_) => 3 case SheddingDead(_, _, _) => 2 case Resting => 0 case _ => 1
  }

  function JanitorLength(j: Janitor): nat {
    match j case SheddingDead(_, left, _) => |left| case SheddingOldest(left, _, _) => |left| case Purging(left, _, _) => |left| case _ => 0
  }

  predicate Lower(later: Janitor, j: Janitor) {
    JanitorPhase(later) < JanitorPhase(j) || (JanitorPhase(later) == JanitorPhase(j) && JanitorLength(later) < JanitorLength(j))
  }

  lemma SheddingLowers(w: World, fault: Fault, known: bool)
    requires (w.janitor.SheddingDead? || w.janitor.SheddingOldest?) && w.janitor.left != []
    ensures Lower(Shedding(w, fault, known).janitor, w.janitor)
  {}

  lemma PurgingLowers(w: World, fault: Fault)
    requires w.janitor.Purging? && w.janitor.left != []
    ensures Lower(PurgingNext(w, fault).janitor, w.janitor)
  {}

  lemma JanitorStatementFits(c: Settings, env: Environment, w: World)
    requires FairToJanitor(c, env) && !w.janitor.Resting?
    ensures Fits(c, w, NextJanitor(env, w)) && Lower(Step(c, w, NextJanitor(env, w)).janitor, w.janitor)
  {
    var e := NextJanitor(env, w);
    if e.Shed? {
      SheddingLowers(w, e.fault, e.known);
    } else if e.PurgeNext? {
      PurgingLowers(w, e.fault);
    }
  }

  /** The rest of a janitor's call. */
  ghost function Finished(c: Settings, env: Environment, w: World): (r: World)
    requires FairToJanitor(c, env)
    ensures r.janitor.Resting?
    decreases JanitorPhase(w.janitor), JanitorLength(w.janitor)
  {
    if w.janitor.Resting? then w
    else
      OthersLeaveJanitor(c, w, env.others(w));
      var before := Turn(c, env, w);
      JanitorStatementFits(c, env, before);
      Finished(c, env, Step(c, before, NextJanitor(env, before)))
  }

  lemma {:induction false} FinishedIsRun(c: Settings, env: Environment, w: World) returns (events: seq<Event>)
    requires FairToJanitor(c, env)
    ensures Possible(c, w, events) && Final(c, w, events) == Finished(c, env, w)
    decreases JanitorPhase(w.janitor), JanitorLength(w.janitor)
  {
    if w.janitor.Resting? {
      events := [];
    } else {
      OthersLeaveJanitor(c, w, env.others(w));
      var before := Turn(c, env, w);
      JanitorStatementFits(c, env, before);
      var e := NextJanitor(env, before);
      var rest := FinishedIsRun(c, env, Step(c, before, e));
      RunCons(c, before, e, rest);
      RunAppend(c, w, env.others(w), [e] + rest);
      events := env.others(w) + ([e] + rest);
    }
  }

  // ----- when nothing disturbs -----

  /** Nobody else acts and every statement works. */
  ghost predicate Quiet(env: Environment) {
    forall w: World :: env.others(w) == [] && env.fault(w).Fine? && env.readable(w) && env.known(w)
  }

  predicate InEviction(j: Janitor) { j.Resting? || j.Overfull? || j.SheddingDead? || j.SheddingOldest? }

  lemma QuietTurn(c: Settings, env: Environment, w: World)
    requires FairToJanitor(c, env) && Quiet(env) && InEviction(w.janitor) && !w.janitor.Resting?
    ensures Turn(c, env, w) == w && Sheds(NextJanitor(env, w)) && Fits(c, w, NextJanitor(env, w))
    ensures InEviction(Step(c, w, NextJanitor(env, w)).janitor)
  {
    JanitorStatementFits(c, env, w);
  }

  /** The rest of an eviction that nothing disturbs is a run whose statements all work. */
  lemma {:induction false} QuietIsRun(c: Settings, env: Environment, w: World) returns (events: seq<Event>)
    requires FairToJanitor(c, env) && Quiet(env) && InEviction(w.janitor)
    ensures Possible(c, w, events) && AllShed(events) && Final(c, w, events) == Finished(c, env, w)
    decreases JanitorPhase(w.janitor), JanitorLength(w.janitor)
  {
    if w.janitor.Resting? {
      events := [];
    } else {
      QuietTurn(c, env, w);
      JanitorStatementFits(c, env, w);
      OthersLeaveJanitor(c, w, env.others(w));
      var e := NextJanitor(env, w);
      var rest := QuietIsRun(c, env, Step(c, w, e));
      RunCons(c, w, e, rest);
      events := [e] + rest;
    }
  }

  /** An eviction that nothing disturbs cuts the queue back. */
  lemma ValvedCuts(c: Settings, env: Environment, w: World)
    requires FairToJanitor(c, env) && Quiet(env) && w.janitor.Resting?
    ensures CutBack(c, w, Valved(c, env, w))
  {
    var counted := Measuring(c, w, true);
    var rest := QuietIsRun(c, env, counted);
    var events := [CountRows(true)] + rest;
    RunCons(c, w, CountRows(true), rest);
    assert events[1..] == rest;
    CutsToCap(c, w, events);
  }

  /** The sinks always answer so, and the clock stays within these times. */
  ghost predicate Answering(env: Environment, a: Answers) {
    forall w: World :: AllTrue(env.results(w)) == a.accepted && a.from <= env.now(w) <= a.until
  }

  /** The rest of a call that nothing disturbs is a run whose statements all work. */
  lemma {:induction false} QuietFlight(c: Settings, env: Environment, w: World, token: string, a: Answers) returns (events: seq<Event>)
    requires FairTo(c, env, token) && Loaded(w, token) && Quiet(env) && Answering(env, a)
    ensures Possible(c, w, events) && AllWork(token, a, events) && Final(c, w, events) == Flown(c, env, w, token)
    ensures token !in Flown(c, env, w, token).flights
    decreases Phase(w, token), Length(w, token)
  {
    if token !in w.flights {
      events := [];
    } else {
      assert Turn(c, env, w) == w;
      StatementFits(c, env, w, token);
      var e := NextOf(env, w, token);
      assert Works(token, a, e);
      var rest := QuietFlight(c, env, Step(c, w, e), token, a);
      RunCons(c, w, e, rest);
      events := [e] + rest;
    }
  }

  /** A call that nothing disturbs resolves exactly what it selected. */
  lemma FlownDispatches(c: Settings, env: Environment, w: World, token: string, now: int, at: int, ids: seq<string>, a: Answers)
    requires Fits(c, w, Select(token, now, at, ids)) && FairTo(c, env, token) && AuditLeases.Tidy(w)
    requires Quiet(env) && Answering(env, a)
    ensures Dispatched(c, a, w, Flown(c, env, Selected(c, w, token, now, at, ids), token), token, at, ids)
  {
    var e := Select(token, now, at, ids);
    var selected := Step(c, w, e);
    assert selected == Selected(c, w, token, now, at, ids);
    var rest := QuietFlight(c, env, selected, token, a);
    RunCons(c, w, e, rest);
    assert ([e] + rest)[1..] == rest;
    DispatchesExactly(c, w, token, a, [e] + rest);
  }

  /** A sweep that nothing disturbs removes exactly what is past its clock. */
  lemma SweptExactly(c: Settings, env: Environment, w: World, now: int)
    requires FairToJanitor(c, env) && Quiet(env) && w.janitor.Resting?
    ensures SweptAt(c, w, Swept(c, env, w, now), now) && Swept(c, env, w, now).janitor.Resting?
  {
    var counted := Counting(c, w, now, true);
    if counted.janitor.Resting? {
      NothingExpired(c, w, now);
    } else {
      FinishedStep(c, env, counted);
      FinishedAtRest(c, env, FineDeleted(c, counted));
      DeletesExpired(c, w, now);
    }
  }

  /** A pass of the janitor that nothing disturbs: the clocks first, and then the cap. */
  lemma JanitorPass(c: Settings, env: Environment, w: World, now: int)
    requires FairToJanitor(c, env) && Quiet(env) && w.janitor.Resting?
    ensures var swept := Swept(c, env, w, now);
      SweptAt(c, w, swept, now) && CutBack(c, swept, Cleaned(c, env, w, now))
  {
    SweptExactly(c, env, w, now);
    var swept := Swept(c, env, w, now);
    assert Turn(c, env, swept) == swept;
    ValvedCuts(c, env, swept);
  }

  // ----- the service -----

  class Service {
    const settings: Settings
    const failClosed: bool
    var rows: Rows
    var records: set<string>
    var flights: map<string, Flight>
    var janitor: Janitor
    var counters: Counters
    var ledger: Ledger

    constructor (settings: Settings, failClosed: bool)
      ensures this.settings == settings && this.failClosed == failClosed && State() == Start()
    {
      this.settings := settings;
      this.failClosed := failClosed;
      rows, records, flights, janitor := map[], {}, map[], Resting;
      counters, ledger := Counters(0, 0, 0, 0, 0), Ledger(0, 0, 0, 0, 0, 0, 0, {}, {}, {});
    }

    function State(): World
      reads this
    {
      World(rows, records, flights, janitor, counters, ledger)
    }

    /** Everybody else acts before the next statement. */
    method Interfere(env: Environment)
      requires Possible(settings, State(), env.others(State()))
      modifies this
      ensures State() == old(Turn(settings, env, State()))
    {
      var later := Final(settings, State(), env.others(State()));
      rows, records, flights, janitor := later.rows, later.records, later.flights, later.janitor;
      counters, ledger := later.counters, later.ledger;
    }

    // ----- the dispatcher -----

    /** One guarded update; whether the call goes on. */
    method ClaimNext(token: string, fault: Fault) returns (ok: bool)
      requires Fits(settings, State(), Cas(token, fault))
      modifies this
      ensures State() == old(Casing(State(), token, fault)) && ok == fault.Fine?
    {
      var f := flights[token];
      var next := f.left[0];
      var claim := Claim(token, f.at);
      var affected := Takes(rows, next.id, claim, f.cutoff);
      if affected && TakesEffect(fault) {
        ledger := ledger.(steals := ledger.steals + CountIf(rows[next.id].claim.Some?, 1));
        rows := Taken(rows, next.id, claim);
      }
      if fault.Lost? {
        flights := flights - {token};
        return false;
      }
      var won := if affected then f.won[next.id := next.claimed] else f.won;
      flights := flights[token := Claiming(f.at, f.cutoff, f.left[1..], won)];
      return true;
    }

    /** Claims each candidate in turn; whether the call goes on. */
    method ClaimAll(token: string, env: Environment) returns (ok: bool)
      requires FairTo(settings, env, token) && token in flights && flights[token].Claiming?
      modifies this
      ensures ok <==> token in flights
      ensures ok ==> flights[token].Claiming? && flights[token].left == []
      ensures Flown(settings, env, State(), token) == old(Flown(settings, env, State(), token))
    {
      while flights[token].left != []
        invariant token in flights && flights[token].Claiming?
        invariant Flown(settings, env, State(), token) == old(Flown(settings, env, State(), token))
        decreases |flights[token].left|
      {
        OthersLeaveFlight(settings, State(), env.others(State()), token);
        Interfere(env);
        ok := ClaimNext(token, env.fault(State()));
        if !ok {
          return;
        }
      }
      return true;
    }

    /** Reads the claimed rows back with their records and counts a duplicate; whether there is a batch. */
    method ReadClaimed(token: string, ids: seq<string>, fault: Fault) returns (ok: bool)
      requires Fits(settings, State(), ReadBack(token, ids, fault))
      modifies this
      ensures State() == old(Reading(State(), token, ids, fault)) && (ok <==> token in flights)
    {
      var f := flights[token];
      if f.won == map[] || fault.Lost? {
        flights := flights - {token};
        return false;
      }
      var batch: seq<Claimed> := [];
      assert forall i :: 0 <= i < |ids| ==> ids[i] in Members(ids);
      var seenDuplicate := false;
      for i := 0 to |ids|
        invariant unchanged(this) && forall j :: 0 <= j < |ids| ==> ids[j] in rows
        invariant batch == Batch(rows, ids[..i], f.won) && seenDuplicate == AnyStolen(batch)
      {
        var row := Claimed(ids[i], rows[ids[i]].attempts, ids[i] in f.won && f.won[ids[i]]);
        StolenSnoc(batch, row);
        batch := batch + [row];
        seenDuplicate := seenDuplicate || row.stolen;
      }
      assert ids[..|ids|] == ids;
      if batch == [] {
        flights := flights - {token};
        return false;
      }
      if seenDuplicate {
        counters := counters.(duplicated := counters.duplicated + 1);
      }
      flights := flights[token := Delivering(f.at, batch)];
      return true;
    }

    /** Hands the batch to the sinks in turn; failing closed, a failure ends it. */
    method HandToSinks(results: seq<bool>) returns (accepted: bool)
      requires |results| == settings.sinks
      ensures accepted == AllTrue(results)
    {
      accepted := true;
      for i := 0 to |results|
        invariant accepted == AllTrue(results[..i])
      {
        assert results[..i + 1] == results[..i] + [results[i]];
        if !results[i] {
          accepted := false;
          if failClosed {
            assert !AllTrue(results);
            return;
          }
        }
      }
      assert results[..|results|] == results;
    }

    method DeliverBatch(token: string, results: seq<bool>)
      requires Fits(settings, State(), Deliver(token, results))
      modifies this
      ensures State() == old(Handing(State(), token, results))
    {
      var f := flights[token];
      var accepted := HandToSinks(results);
      flights := flights[token := Settling(f.at, f.rows, accepted)];
      if accepted {
        ledger := ledger.(acked := ledger.acked + BatchIds(f.rows));
      }
    }

    /** Resolves the first row of the call's batch. */
    method SettleRow(token: string, now: int, fault: Fault)
      requires Fits(settings, State(), Settle(token, now, fault))
      modifies this
      ensures State() == old(Resolving(settings, State(), token, now, fault))
    {
      var row := flights[token].rows[0];
      var accepted := flights[token].accepted;
      flights := Popped(flights, token);
      if accepted {
        if TakesEffect(fault) {
          ledger := ledger.(delivered := ledger.delivered + CountIf(row.id in rows, 1));
          rows := rows - {row.id};
        }
        return;
      }
      if row.attempts >= settings.maxAttempts {
        if TakesEffect(fault) && row.id in rows {
          rows := rows[row.id := rows[row.id].(deadAt := Some(now), claim := None)];
        }
        if fault.Fine? {
          counters := counters.(deadLettered := counters.deadLettered + 1);
        }
        return;
      }
      var delay := AuditClocks.NextBackoff(row.attempts);
      if TakesEffect(fault) && row.id in rows {
        rows := rows[row.id := rows[row.id].(nextAt := now + delay, claim := None)];
      }
    }

    /** Settles every row of the batch in turn. */
    method SettleBatch(token: string, env: Environment)
      requires FairTo(settings, env, token) && token in flights && flights[token].Settling? && flights[token].rows != []
      modifies this
      ensures token !in flights && State() == old(Flown(settings, env, State(), token))
    {
      while token in flights
        invariant token in flights ==> flights[token].Settling? && flights[token].rows != []
        invariant Flown(settings, env, State(), token) == old(Flown(settings, env, State(), token))
        decreases Length(State(), token)
      {
        OthersLeaveFlight(settings, State(), env.others(State()), token);
        Interfere(env);
        StatementFits(settings, env, State(), token);
        SettleRow(token, env.now(State()), env.fault(State()));
      }
    }

    /** Delivers the batch to every sink and settles it. */
    method DeliverAndSettle(token: string, env: Environment)
      requires FairTo(settings, env, token) && token in flights && flights[token].Delivering? && flights[token].rows != []
      modifies this
      ensures token !in flights && State() == old(Flown(settings, env, State(), token))
    {
      OthersLeaveFlight(settings, State(), env.others(State()), token);
      Interfere(env);
      StatementFits(settings, env, State(), token);
      DeliverBatch(token, env.results(State()));
      SettleBatch(token, env);
    }

    /** Reads the claimed batch back, and delivers and settles what there is. */
    method FinishBatch(token: string, env: Environment)
      requires FairTo(settings, env, token) && token in flights && flights[token].Claiming? && flights[token].left == []
      modifies this
      ensures token !in flights && State() == old(Flown(settings, env, State(), token))
    {
      OthersLeaveFlight(settings, State(), env.others(State()), token);
      Interfere(env);
      StatementFits(settings, env, State(), token);
      var ok := ReadClaimed(token, env.ids(State()), env.fault(State()));
      if ok {
        DeliverAndSettle(token, env);
      }
    }

    /**
     * Selects, claims, reads back, delivers and settles one batch, with anything in between. What
     * the counters should account for stays in balance.
     */
    method DispatchOnce(token: string, now: int, at: int, ids: seq<string>, env: Environment)
      requires Fits(settings, State(), Select(token, now, at, ids)) && FairTo(settings, env, token)
      modifies this
      ensures token !in flights
      ensures State() == old(Flown(settings, env, Selected(settings, State(), token, now, at, ids), token))
      ensures old(Balanced(State())) ==> Balanced(State())
      ensures Quiet(env) && old(AuditLeases.Tidy(State())) ==>
        forall a :: Answering(env, a) ==> Dispatched(settings, a, old(State()), State(), token, at, ids)
    {
      ghost var before := State();
      FlownBalances(settings, env, before, Select(token, now, at, ids), token);
      Dispatch(token, now, at, ids, env);
      if Quiet(env) && AuditLeases.Tidy(before) {
        forall a | Answering(env, a) ensures Dispatched(settings, a, before, State(), token, at, ids) {
          FlownDispatches(settings, env, before, token, now, at, ids, a);
        }
      }
    }

    /** Selects and claims a batch, hands it over and settles it. */
    method Dispatch(token: string, now: int, at: int, ids: seq<string>, env: Environment)
      requires Fits(settings, State(), Select(token, now, at, ids)) && FairTo(settings, env, token)
      modifies this
      ensures token !in flights
      ensures State() == old(Flown(settings, env, Selected(settings, State(), token, now, at, ids), token))
    {
      flights := flights[token := Claiming(at, now - settings.lease, Candidates(rows, ids), map[])];
      ledger := ledger.(tokens := ledger.tokens + {token});
      assert State() == old(Selected(settings, State(), token, now, at, ids));
      var ok := ClaimAll(token, env);
      if ok {
        FinishBatch(token, env);
      }
    }

    // ----- the janitor -----

    /** The counts a store call returns, added up by the janitor. */
    method AddDropped(dropped: nat, pending: nat)
      modifies this`counters
      ensures counters == old(Dropping(counters, dropped, pending))
    {
      if dropped > 0 {
        counters := counters.(dropped := counters.dropped + dropped);
      }
      if pending > 0 {
        counters := counters.(pendingDropped := counters.pendingDropped + pending);
      }
    }

    /** Deletes what is expired by now; the counts returned are those of before. */
    method DeleteCounted(fault: Fault) returns (pending: nat, dead: nat, failed: bool)
      requires janitor.Sweeping?
      modifies this
      ensures janitor.Resting? && old(Deleting(settings, State(), fault)) == Reported(State(), dead + pending, pending)
      ensures failed ==> pending == dead == 0
    {
      if fault.Lost? {
        DeleteLost(fault.applied);
        return 0, 0, true;
      }
      pending, dead := |janitor.pending|, |janitor.dead|;
      var gone := Expired(rows, janitor.now, settings.maxAge, settings.deadLetterTtl);
      ledger := Reckoned(ledger, dead, janitor.pending + janitor.dead, gone);
      rows, janitor := rows - gone, Resting;
      failed := false;
    }

    /** The DELETE is reported as failed, whether or not it took effect. */
    method DeleteLost(applied: bool)
      requires janitor.Sweeping?
      modifies this
      ensures State() == old(LostDeleted(settings, State(), applied))
    {
      var gone := if applied then Expired(rows, janitor.now, settings.maxAge, settings.deadLetterTtl) else {};
      ledger := ledger.(leaked := ledger.leaked + |gone|);
      rows, janitor := rows - gone, Resting;
    }

    /** Counts the expired rows, deletes what is expired by then, and returns what it counted. */
    method SweepExpired(now: int, env: Environment) returns (pending: nat, dead: nat, failed: bool)
      requires FairToJanitor(settings, env) && janitor.Resting?
      modifies this
      ensures janitor.Resting? && old(Swept(settings, env, State(), now)) == Reported(State(), dead + pending, pending)
      ensures failed ==> pending == dead == 0
      ensures Quiet(env) ==> SweptAt(settings, old(State()), Reported(State(), dead + pending, pending), now)
    {
      ghost var before := State();
      pending, dead, failed := SweepNow(now, env);
      if Quiet(env) {
        SweptExactly(settings, env, before, now);
      }
    }

    /** The count, and the DELETE when there is something to delete. */
    method SweepNow(now: int, env: Environment) returns (pending: nat, dead: nat, failed: bool)
      requires FairToJanitor(settings, env) && janitor.Resting?
      modifies this
      ensures janitor.Resting? && old(Swept(settings, env, State(), now)) == Reported(State(), dead + pending, pending)
      ensures failed ==> pending == dead == 0
    {
      var waiting, buried := PendingExpired(rows, now, settings.maxAge), DeadExpired(rows, now, settings.deadLetterTtl);
      if !env.readable(State()) || waiting + buried == {} {
        return 0, 0, !env.readable(State());
      }
      janitor := Janitor.Sweeping(now, waiting, buried);
      pending, dead, failed := DeleteLater(env);
    }

    method DeleteLater(env: Environment) returns (pending: nat, dead: nat, failed: bool)
      requires FairToJanitor(settings, env) && janitor.Sweeping?
      modifies this
      ensures janitor.Resting? && old(Finished(settings, env, State())) == Reported(State(), dead + pending, pending)
      ensures failed ==> pending == dead == 0
    {
      FinishedStep(settings, env, State());
      Interfere(env);
      FinishedAtRest(settings, env, Deleting(settings, State(), env.fault(State())));
      pending, dead, failed := DeleteCounted(env.fault(State()));
    }

    /** Deletes the next victim; an error ends the eviction with what it has counted. */
    method DeleteVictim(fault: Fault, known: bool) returns (ok: bool)
      requires (janitor.SheddingDead? || janitor.SheddingOldest?) && janitor.left != []
      modifies this
      ensures ok ==> State() == old(Shedding(State(), fault, known))
      ensures !ok ==> janitor.Resting?
      ensures !ok ==> old(Shedding(State(), fault, known)) == Reported(State(), old(janitor.deadShed), old(PendingShed(janitor)))
      ensures ok == fault.Fine?
    {
      var id := janitor.left[0];
      var affected := fault.Fine? && known && id in rows;
      if TakesEffect(fault) && id in rows {
        rows := rows - {id};
        ledger := ledger.(leaked := ledger.leaked + if affected then 0 else 1);
      }
      if fault.Lost? {
        ledger := ledger.(deadCounted := ledger.deadCounted + janitor.deadShed, misreported := ledger.misreported + PendingShed(janitor),
                          leaked := ledger.leaked + PendingShed(janitor));
        janitor := Resting;
        return false;
      }
      if janitor.SheddingDead? {
        janitor := SheddingDead(janitor.overflow, janitor.left[1..], janitor.deadShed + CountIf(affected, 1));
      } else {
        janitor := SheddingOldest(janitor.left[1..], janitor.deadShed, janitor.pendingShed + CountIf(affected, 1));
      }
      return true;
    }

    /** The same after whatever the others do first. */
    method DeleteInTurn(env: Environment) returns (deadShed: nat, pendingShed: nat, ok: bool)
      requires FairToJanitor(settings, env) && (janitor.SheddingDead? || janitor.SheddingOldest?) && janitor.left != []
      modifies this
      ensures !ok ==> janitor.Resting? && old(Finished(settings, env, State())) == Reported(State(), deadShed, pendingShed)
      ensures ok ==> SameEviction(old(janitor), janitor) && |janitor.left| < old(|janitor.left|)
      ensures ok ==> Finished(settings, env, State()) == old(Finished(settings, env, State()))
    {
      FinishedShed(settings, env, State());
      Interfere(env);
      deadShed, pendingShed := janitor.deadShed, PendingShed(janitor);
      ok := DeleteVictim(env.fault(State()), env.known(State()));
    }

    /** Deletes the selected rows one by one; how many, and whether all statements worked. */
    method DeleteSelected(env: Environment) returns (deadShed: nat, pendingShed: nat, ok: bool)
      requires FairToJanitor(settings, env) && (janitor.SheddingDead? || janitor.SheddingOldest?)
      modifies this
      ensures !ok ==> janitor.Resting? && old(Finished(settings, env, State())) == Reported(State(), deadShed, pendingShed)
      ensures ok ==> SameEviction(old(janitor), janitor)
      ensures ok ==> janitor.left == [] && janitor.deadShed == deadShed && PendingShed(janitor) == pendingShed
      ensures ok ==> Finished(settings, env, State()) == old(Finished(settings, env, State()))
    {
      while janitor.left != []
        invariant SameEviction(old(janitor), janitor)
        invariant Finished(settings, env, State()) == old(Finished(settings, env, State()))
        decreases |janitor.left|
      {
        deadShed, pendingShed, ok := DeleteInTurn(env);
        if !ok {
          return;
        }
      }
      return janitor.deadShed, PendingShed(janitor), true;
    }

    /** Sheds dead letters first and then the oldest rows; both counts, whether or not an error comes with them. */
    method EvictOverCap(env: Environment) returns (evicted: nat, pendingEvicted: nat, failed: bool)
      requires FairToJanitor(settings, env) && janitor.Resting? && settings.maxRows > 0
      modifies this
      ensures janitor.Resting? && old(Valved(settings, env, State())) == Reported(State(), evicted, pendingEvicted)
      ensures Quiet(env) ==> CutBack(settings, old(State()), Reported(State(), evicted, pendingEvicted))
    {
      ghost var before := State();
      evicted, pendingEvicted, failed := EvictExcess(env);
      if Quiet(env) {
        ValvedCuts(settings, env, before);
      }
    }

    /** Counts the rows, and evicts those above the cap. */
    method EvictExcess(env: Environment) returns (evicted: nat, pendingEvicted: nat, failed: bool)
      requires FairToJanitor(settings, env) && janitor.Resting? && settings.maxRows > 0
      modifies this
      ensures janitor.Resting? && old(Valved(settings, env, State())) == Reported(State(), evicted, pendingEvicted)
    {
      var total := |rows|;
      if !env.readable(State()) || total <= settings.maxRows {
        FinishedAtRest(settings, env, State());
        return 0, 0, !env.readable(State());
      }
      janitor := Overfull(total - settings.maxRows);
      assert State() == old(Measuring(settings, State(), env.readable(State())));
      evicted, pendingEvicted, failed := EvictOverflow(env);
    }

    method EvictOverflow(env: Environment) returns (evicted: nat, pendingEvicted: nat, failed: bool)
      requires FairToJanitor(settings, env) && janitor.Overfull?
      modifies this
      ensures janitor.Resting? && old(Finished(settings, env, State())) == Reported(State(), evicted, pendingEvicted)
    {
      FinishedStep(settings, env, State());
      Interfere(env);
      if !env.readable(State()) {
        janitor := Resting;
        return 0, 0, true;
      }
      janitor := SheddingDead(janitor.overflow, env.ids(State()), 0);
      evicted, pendingEvicted, failed := EvictDead(env);
    }

    /** The selected dead letters, and then what more is needed. */
    method EvictDead(env: Environment) returns (evicted: nat, pendingEvicted: nat, failed: bool)
      requires FairToJanitor(settings, env) && janitor.SheddingDead?
      modifies this
      ensures janitor.Resting? && old(Finished(settings, env, State())) == Reported(State(), evicted, pendingEvicted)
    {
      var ok;
      evicted, pendingEvicted, ok := DeleteSelected(env);
      if !ok {
        return evicted, pendingEvicted, true;
      }
      if janitor.overflow > janitor.deadShed {
        evicted, pendingEvicted, failed := EvictOldest(env);
      } else {
        evicted, pendingEvicted, failed := EndEvicting(env);
      }
    }

    /** The rest of the overflow, from the oldest rows. */
    method EvictOldest(env: Environment) returns (evicted: nat, pendingEvicted: nat, failed: bool)
      requires FairToJanitor(settings, env) && janitor.SheddingDead? && janitor.left == [] && janitor.overflow > janitor.deadShed
      modifies this
      ensures janitor.Resting? && old(Finished(settings, env, State())) == Reported(State(), evicted, pendingEvicted)
    {
      var deadShed := janitor.deadShed;
      FinishedStep(settings, env, State());
      Interfere(env);
      if !env.readable(State()) {
        FinishedAtRest(settings, env, Evicted(State(), deadShed, deadShed, 0));
        janitor := Resting;
        ledger := ledger.(deadCounted := ledger.deadCounted + deadShed);
        return deadShed, 0, true;
      }
      janitor := SheddingOldest(env.ids(State()), deadShed, 0);
      var ok;
      evicted, pendingEvicted, ok := DeleteSelected(env);
      if !ok {
        return evicted, pendingEvicted, true;
      }
      evicted, pendingEvicted, failed := EndEvicting(env);
    }

    /** All statements have worked. */
    method EndEvicting(env: Environment) returns (evicted: nat, pendingEvicted: nat, failed: bool)
      requires FairToJanitor(settings, env)
      requires (janitor.SheddingDead? && janitor.left == [] && janitor.overflow <= janitor.deadShed) || (janitor.SheddingOldest? && janitor.left == [])
      modifies this
      ensures janitor.Resting? && old(Finished(settings, env, State())) == Reported(State(), evicted, pendingEvicted)
    {
      FinishedStep(settings, env, State());
      Interfere(env);
      FinishedAtRest(settings, env, EndingEviction(State()));
      evicted, pendingEvicted := janitor.deadShed + PendingShed(janitor), PendingShed(janitor);
      ledger := ledger.(deadCounted := ledger.deadCounted + janitor.deadShed);
      janitor := Resting;
      failed := false;
    }

    /** Enforces the two clocks and then the emergency valve. What the counters should account for stays in balance. */
    method JanitorOnce(now: int, env: Environment)
      requires FairToJanitor(settings, env) && janitor.Resting?
      modifies this
      ensures janitor.Resting? && State() == old(Cleaned(settings, env, State(), now))
      ensures old(Balanced(State())) ==> Balanced(State())
    {
      CleanedBalances(settings, env, State(), now);
      var pendingEvicted, deadPurged, failed := SweepExpired(now, env);
      AddDropped(deadPurged, 0);
      AddDropped(pendingEvicted, pendingEvicted);
      assert State() == old(Swept(settings, env, State(), now));
      OthersLeaveJanitor(settings, State(), env.others(State()));
      Interfere(env);
      EnforceCap(env);
    }

    method EnforceCap(env: Environment)
      requires FairToJanitor(settings, env) && janitor.Resting?
      modifies this
      ensures janitor.Resting? && State() == old(Valved(settings, env, State()))
    {
      if settings.maxRows > 0 {
        var evicted, pendingEvicted, failed := EvictOverCap(env);
        AddDropped(evicted, pendingEvicted);
      }
    }

    // ----- the orphan scan -----

    /** Deletes the next orphan; an error ends the purge. */
    method PurgeOne(fault: Fault) returns (ok: bool)
      requires janitor.Purging? && janitor.left != []
      modifies this
      ensures State() == old(PurgingNext(State(), fault)) && ok == fault.Fine?
    {
      var id := janitor.left[0];
      var removes := CountIf(TakesEffect(fault) && id in rows, 1);
      if TakesEffect(fault) {
        rows := rows - {id};
      }
      if fault.Lost? {
        ledger := ledger.(leaked := ledger.leaked + janitor.removed + removes);
        janitor := Resting;
        return false;
      }
      janitor := Purging(janitor.left[1..], janitor.removed + removes, janitor.absent + 1 - removes);
      return true;
    }

    /** The same after whatever the others do first. */
    method PurgeInTurn(env: Environment) returns (ok: bool)
      requires FairToJanitor(settings, env) && janitor.Purging? && janitor.left != []
      modifies this
      ensures !ok ==> janitor.Resting? && old(Finished(settings, env, State())) == State()
      ensures ok ==> janitor.Purging? && |janitor.left| < old(|janitor.left|)
      ensures ok ==> janitor.removed + janitor.absent == old(janitor.removed + janitor.absent) + 1
      ensures ok ==> Finished(settings, env, State()) == old(Finished(settings, env, State()))
    {
      FinishedPurge(settings, env, State());
      Interfere(env);
      ok := PurgeOne(env.fault(State()));
    }

    /** All statements have worked; the number of them. */
    method EndPurging(env: Environment) returns (purged: nat)
      requires FairToJanitor(settings, env) && janitor.Purging? && janitor.left == []
      modifies this
      ensures janitor.Resting? && purged == old(janitor.removed + janitor.absent)
      ensures old(Finished(settings, env, State())) == Scanned(State(), purged)
    {
      FinishedEndPurge(settings, env, State());
      Interfere(env);
      purged := janitor.removed + janitor.absent;
      ledger := ledger.(overcounted := ledger.overcounted + janitor.absent);
      janitor := Resting;
    }

    /** Deletes the selected orphans one by one, counting each statement that worked. */
    method PurgeSelected(env: Environment) returns (purged: nat, ok: bool)
      requires FairToJanitor(settings, env) && janitor.Purging? && janitor.removed == janitor.absent == 0
      modifies this
      ensures janitor.Resting? && old(Finished(settings, env, State())) == Scanned(State(), if ok then purged else 0)
    {
      purged := 0;
      while janitor.left != []
        invariant janitor.Purging? && purged == janitor.removed + janitor.absent
        invariant Finished(settings, env, State()) == old(Finished(settings, env, State()))
        decreases |janitor.left|
      {
        ok := PurgeInTurn(env);
        if !ok {
          return;
        }
        purged := purged + 1;
      }
      purged := EndPurging(env);
      ok := true;
    }

    /** Selects and deletes orphans; the count is used only when no error comes with it. */
    method OrphanScan(ids: seq<string>, limit: nat, env: Environment)
      requires FairToJanitor(settings, env) && janitor.Resting?
      requires env.readable(State()) ==> AreOrphans(rows, records, ids, limit)
      modifies this
      ensures janitor.Resting?
      ensures State() == old(Finished(settings, env, Step(settings, State(), SelectOrphans(ids, limit, env.readable(State())))))
    {
      if !env.readable(State()) {
        FinishedAtRest(settings, env, State());
        return;
      }
      janitor := Purging(ids, 0, 0);
      assert State() == old(Step(settings, State(), SelectOrphans(ids, limit, env.readable(State()))));
      var purged, ok := PurgeSelected(env);
      if ok && purged > 0 {
        counters := counters.(orphaned := counters.orphaned + purged);
      }
    }
  }

  function Scanned(w: World, purged: nat): World { w.(counters := w.counters.(orphaned := w.counters.orphaned + purged)) }

  /** The same selection goes on. */
  predicate SameEviction(before: Janitor, after: Janitor) {
    || (before.SheddingDead? && after.SheddingDead? && after.overflow == before.overflow)
    || (before.SheddingOldest? && after.SheddingOldest? && after.deadShed == before.deadShed)
  }

  /** The pending rows an eviction has counted so far. */
  function PendingShed(j: Janitor): nat { if j.SheddingOldest? then j.pendingShed else 0 }

  lemma FinishedStep(c: Settings, env: Environment, w: World)
    requires FairToJanitor(c, env) && !w.janitor.Resting?
    ensures var turn := Turn(c, env, w);
      && turn.janitor == w.janitor && Fits(c, turn, NextJanitor(env, turn))
      && Finished(c, env, w) == Finished(c, env, Step(c, turn, NextJanitor(env, turn)))
  {
    OthersLeaveJanitor(c, w, env.others(w));
    JanitorStatementFits(c, env, Turn(c, env, w));
  }

  lemma FinishedPurge(c: Settings, env: Environment, w: World)
    requires FairToJanitor(c, env) && w.janitor.Purging? && w.janitor.left != []
    ensures Turn(c, env, w).janitor == w.janitor
    ensures var turn := Turn(c, env, w); var later := PurgingNext(turn, env.fault(turn));
      Finished(c, env, w) == Finished(c, env, later) && (env.fault(turn).Lost? ==> Finished(c, env, w) == later)
  {
    FinishedStep(c, env, w);
    var turn := Turn(c, env, w);
    var later := PurgingNext(turn, env.fault(turn));
    assert Step(c, turn, NextJanitor(env, turn)) == later;
    if env.fault(turn).Lost? {
      FinishedAtRest(c, env, later);
    }
  }

  lemma FinishedShed(c: Settings, env: Environment, w: World)
    requires FairToJanitor(c, env) && (w.janitor.SheddingDead? || w.janitor.SheddingOldest?) && w.janitor.left != []
    ensures Turn(c, env, w).janitor == w.janitor
    ensures var turn := Turn(c, env, w); var later := Shedding(turn, env.fault(turn), env.known(turn));
      Finished(c, env, w) == Finished(c, env, later) && (env.fault(turn).Lost? ==> Finished(c, env, w) == later)
  {
    FinishedStep(c, env, w);
    var turn := Turn(c, env, w);
    assert Step(c, turn, NextJanitor(env, turn)) == Shedding(turn, env.fault(turn), env.known(turn));
    if env.fault(turn).Lost? {
      FinishedIfHalted(c, env, turn);
    }
  }

  lemma FinishedEndPurge(c: Settings, env: Environment, w: World)
    requires FairToJanitor(c, env) && w.janitor.Purging? && w.janitor.left == []
    ensures Turn(c, env, w).janitor == w.janitor && Finished(c, env, w) == EndingPurge(Turn(c, env, w))
  {
    FinishedStep(c, env, w);
  }

  lemma FinishedAtRest(c: Settings, env: Environment, w: World)
    requires FairToJanitor(c, env) && w.janitor.Resting?
    ensures Finished(c, env, w) == w
  {}

  lemma FinishedIfHalted(c: Settings, env: Environment, w: World)
    requires FairToJanitor(c, env) && (w.janitor.SheddingDead? || w.janitor.SheddingOldest?) && w.janitor.left != []
    requires env.fault(w).Lost?
    ensures Finished(c, env, Shedding(w, env.fault(w), env.known(w))) == Shedding(w, env.fault(w), env.known(w))
  {}

  lemma StolenSnoc(batch: seq<Claimed>, row: Claimed)
    ensures AnyStolen(batch + [row]) <==> AnyStolen(batch) || row.stolen
  {
    var longer := batch + [row];
    assert longer[|batch|] == row;
    if AnyStolen(batch) {
      var i :| 0 <= i < |batch| && batch[i].stolen;
      assert longer[i].stolen;
    }
  }

  lemma FlownBalances(c: Settings, env: Environment, w: World, e: Event, token: string)
    requires FairTo(c, env, token) && Fits(c, w, e) && Loaded(Step(c, w, e), token)
    ensures Balanced(w) ==> Balanced(Flown(c, env, Step(c, w, e), token))
  {
    if Balanced(w) {
      StepBalances(c, w, e);
      var events := FlownIsRun(c, env, Step(c, w, e), token);
      RunBalances(c, Step(c, w, e), events);
    }
  }

  /** A sweep, whatever happens between its two statements. */
  ghost function Swept(c: Settings, env: Environment, w: World, now: int): World
    requires FairToJanitor(c, env)
  {
    Finished(c, env, Counting(c, w, now, env.readable(w)))
  }

  /** An eviction, whatever happens between its statements. */
  ghost function Valved(c: Settings, env: Environment, w: World): World
    requires FairToJanitor(c, env)
  {
    Finished(c, env, Measuring(c, w, env.readable(w)))
  }

  /** The state with what a store call returned added to the counters. */
  function Reported(w: World, dropped: nat, pending: nat): World { w.(counters := Dropping(w.counters, dropped, pending)) }

  /** One pass of the janitor: a sweep, whatever else happens, and an eviction. */
  ghost function Cleaned(c: Settings, env: Environment, w: World, now: int): World
    requires FairToJanitor(c, env)
  {
    Valved(c, env, Turn(c, env, Swept(c, env, w, now)))
  }

  lemma FinishedBalances(c: Settings, env: Environment, w: World)
    requires FairToJanitor(c, env) && Balanced(w)
    ensures Balanced(Finished(c, env, w))
  {
    var events := FinishedIsRun(c, env, w);
    RunBalances(c, w, events);
  }

  lemma CleanedBalances(c: Settings, env: Environment, w: World, now: int)
    requires FairToJanitor(c, env) && w.janitor.Resting?
    ensures Balanced(w) ==> Balanced(Cleaned(c, env, w, now))
  {
    if Balanced(w) {
      StepBalances(c, w, CountExpired(now, env.readable(w)));
      FinishedBalances(c, env, Counting(c, w, now, env.readable(w)));
      var swept := Swept(c, env, w, now);
      RunBalances(c, swept, env.others(swept));
      OthersLeaveJanitor(c, swept, env.others(swept));
      var turn := Turn(c, env, swept);
      StepBalances(c, turn, CountRows(env.readable(turn)));
      FinishedBalances(c, env, Measuring(c, turn, env.readable(turn)));
    }
  }
}
