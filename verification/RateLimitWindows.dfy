/**
 * How many requests the in-memory store grants a key in any window, evictions and all. Only the
 * key's own requests need to read the clock in order, and none of them late; the times of every
 * other event are arbitrary.
 */
module RateLimitWindows {
  import opened Outcomes
  import opened RateLimitStore
  import opened RateLimitBounds

  predicate Own(e: Event, key: string) { e.Allow? && e.key == key }

  function GrantOf(s: Store, e: Event, key: string): nat
    requires WellFormed(s)
  {
    if Own(e, key) && Answer(s, e).value.allowed then 1 else 0
  }

  /** The time of the key's latest request. */
  function OwnClock(e: Event, key: string, clock: int): int { if Own(e, key) then e.now else clock }

  /** Requests of the key granted between the two times. */
  function Grants(s: Store, events: seq<Event>, key: string, from: int, until: int): nat
    requires Possible(s, events)
    decreases events
  {
    if events == [] then 0
    else
      (if from <= events[0].now <= until then GrantOf(s, events[0], key) else 0)
      + Grants(Step(s, events[0]), events[1..], key, from, until)
  }

  /** Times the key's live counter was dropped while the key's latest request was between the two times. */
  function Losses(s: Store, events: seq<Event>, key: string, clock: int, from: int, until: int): nat
    requires Possible(s, events)
    decreases events
  {
    if events == [] then 0
    else
      (if from <= clock <= until && Loses(s, events[0], key) then 1 else 0)
      + Losses(Step(s, events[0]), events[1..], key, OwnClock(events[0], key, clock), from, until)
  }

  /** One key, one rate, and its requests in the order of their times. */
  predicate InOrder(events: seq<Event>, key: string, rate: Rate, clock: int)
    decreases events
  {
    events != [] ==>
      && (Own(events[0], key) ==> events[0].rate == rate && clock <= events[0].now)
      && InOrder(events[1..], key, rate, OwnClock(events[0], key, clock))
  }

  /** No request of the key is late. */
  predicate NeverLate(s: Store, memory: Option<Bucket>, events: seq<Event>, key: string)
    requires Possible(s, events)
  {
    NoneLate(s, memory, events, key, |events|)
  }

  // ----- the run as one key sees it -----

  /** A request of the key itself, the loss of its live counter, or nothing the key can see. */
  datatype Sight = Mine(now: int) | Lost | Nothing

  function SightOf(s: Store, e: Event, key: string): Sight
    requires Fits(s, e)
  {
    if Own(e, key) then Mine(e.now) else if Loses(s, e, key) then Lost else Nothing
  }

  function Sights(s: Store, events: seq<Event>, key: string): seq<Sight>
    requires Possible(s, events)
    decreases events
  {
    if events == [] then [] else [SightOf(s, events[0], key)] + Sights(Step(s, events[0]), events[1..], key)
  }

  function Seen(memory: Option<Bucket>, sight: Sight, rate: Rate): Option<Bucket> {
    match sight
    case Mine(now) => Some(Counted(memory, rate, now))
    case Lost => None
    case Nothing => memory
  }

  function GrantSeen(memory: Option<Bucket>, sight: Sight, rate: Rate): nat {
    if sight.Mine? && Decide(Counted(memory, rate, sight.now), rate).allowed then 1 else 0
  }

  function ClockSeen(sight: Sight, clock: int): int { if sight.Mine? then sight.now else clock }

  predicate Forward(sights: seq<Sight>, clock: int)
    decreases sights
  {
    sights != [] ==> (sights[0].Mine? ==> clock <= sights[0].now) && Forward(sights[1..], ClockSeen(sights[0], clock))
  }

  function GrantsSeen(memory: Option<Bucket>, sights: seq<Sight>, rate: Rate, from: int, until: int): nat
    decreases sights
  {
    if sights == [] then 0
    else (if sights[0].Mine? && from <= sights[0].now <= until then GrantSeen(memory, sights[0], rate) else 0)
         + GrantsSeen(Seen(memory, sights[0], rate), sights[1..], rate, from, until)
  }

  function LossesSeen(sights: seq<Sight>, clock: int, from: int, until: int): nat
    decreases sights
  {
    if sights == [] then 0
    else (if from <= clock <= until && sights[0].Lost? then 1 else 0)
         + LossesSeen(sights[1..], ClockSeen(sights[0], clock), from, until)
  }

  /** A request never drops its own counter. */
  lemma OwnKeyStays(s: Store, e: Event)
    requires Fits(s, e) && e.Allow?
    ensures !Loses(s, e, e.key)
  {
    StepLookup(s, e, e.key);
  }

  lemma SightExplained(s: Store, memory: Option<Bucket>, e: Event, key: string, rate: Rate)
    requires Fits(s, e) && Knows(s, memory, key) && !Late(s, memory, e, key) && (Own(e, key) ==> e.rate == rate)
    ensures var sight := SightOf(s, e, key);
      && Remembered(s, memory, e, key) == Seen(memory, sight, rate) && GrantOf(s, e, key) == GrantSeen(memory, sight, rate)
      && (sight.Mine? <==> Own(e, key)) && (sight.Mine? ==> sight.now == e.now) && (sight.Lost? <==> Loses(s, e, key))
  {
    if Own(e, key) {
      CountsRemembered(s, memory, e, key);
      OwnKeyStays(s, e);
    }
  }

  lemma SightsUnrolled(s: Store, events: seq<Event>, key: string)
    requires Possible(s, events) && events != []
    ensures var sights := Sights(s, events, key);
      sights != [] && sights[0] == SightOf(s, events[0], key) && sights[1..] == Sights(Step(s, events[0]), events[1..], key)
  {}

  lemma {:induction false} SightsForward(s: Store, events: seq<Event>, key: string, rate: Rate, clock: int)
    requires Possible(s, events) && InOrder(events, key, rate, clock)
    ensures Forward(Sights(s, events, key), clock)
    decreases events
  {
    if events != [] {
      SightsUnrolled(s, events, key);
      SightsForward(Step(s, events[0]), events[1..], key, rate, OwnClock(events[0], key, clock));
    }
  }

  /** What one event tells the key, and what is left. */
  lemma OneSeen(s: Store, memory: Option<Bucket>, events: seq<Event>, key: string, rate: Rate, clock: int)
    requires WellFormed(s) && Possible(s, events) && Knows(s, memory, key) && events != []
    requires InOrder(events, key, rate, clock) && NeverLate(s, memory, events, key)
    ensures var e := events[0]; var later := Remembered(s, memory, e, key);
      && Knows(Step(s, e), later, key) && NeverLate(Step(s, e), later, events[1..], key)
      && InOrder(events[1..], key, rate, OwnClock(e, key, clock)) && later == Seen(memory, SightOf(s, e, key), rate)
      && GrantOf(s, e, key) == GrantSeen(memory, SightOf(s, e, key), rate)
  {
    SightExplained(s, memory, events[0], key, rate);
    StepKnows(s, memory, events[0], key);
  }

  /** The key sees everything that decides its grants. */
  lemma {:induction false} GrantsAreSeen(s: Store, memory: Option<Bucket>, events: seq<Event>, key: string, rate: Rate, clock: int,
                                         from: int, until: int)
    requires WellFormed(s) && Possible(s, events) && Knows(s, memory, key)
    requires InOrder(events, key, rate, clock) && NeverLate(s, memory, events, key)
    ensures Grants(s, events, key, from, until) == GrantsSeen(memory, Sights(s, events, key), rate, from, until)
    decreases events
  {
    if events != [] {
      OneSeen(s, memory, events, key, rate, clock);
      SightsUnrolled(s, events, key);
      GrantsAreSeen(Step(s, events[0]), Remembered(s, memory, events[0], key), events[1..], key, rate,
                    OwnClock(events[0], key, clock), from, until);
    }
  }

  lemma {:induction false} LossesAreSeen(s: Store, events: seq<Event>, key: string, clock: int, from: int, until: int)
    requires Possible(s, events)
    ensures Losses(s, events, key, clock, from, until) == LossesSeen(Sights(s, events, key), clock, from, until)
    decreases events
  {
    if events != [] {
      SightsUnrolled(s, events, key);
      if Own(events[0], key) {
        OwnKeyStays(s, events[0]);
      }
      LossesAreSeen(Step(s, events[0]), events[1..], key, OwnClock(events[0], key, clock), from, until);
    }
  }

  // ----- accounting for one window -----

  /** Budget that the key's present counter has used up, all of it when there is none. */
  function Used(found: Option<Bucket>, requests: nat): nat {
    if found.Some? && found.value.count <= requests then found.value.count else requests
  }

  /** That many whole budgets. */
  function Budgets(n: nat, requests: nat): nat { if n == 0 then 0 else Budgets(n - 1, requests) + requests }

  lemma {:induction false} BudgetsMultiply(n: nat, requests: nat)
    ensures Budgets(n, requests) == n * requests
  {
    if n > 0 {
      BudgetsMultiply(n - 1, requests);
      assert n * requests == (n - 1) * requests + requests;
    }
  }

  lemma {:induction false} BudgetsMonotone(n: nat, more: nat, requests: nat)
    requires n <= more
    ensures Budgets(n, requests) <= Budgets(more, requests)
  {
    if n < more {
      BudgetsMonotone(n, more - 1, requests);
    }
  }

  /**
   * Accounts for an interval of one window: every grant belongs to one of the counters started in
   * it or to the one before, and a counter started in it can only be replaced after it was lost.
   */
  predicate Accounted(memory: Option<Bucket>, rate: Rate, grants: int, starts: nat, losses: nat, from: int)
    requires rate.requests >= 0
  {
    && grants <= Budgets(starts, rate.requests) + Used(memory, rate.requests)
    && starts <= losses + 1
    && (starts == losses + 1 ==> memory.Some? && memory.value.resetAt >= from + rate.window)
  }

  lemma StartAccounts(memory: Option<Bucket>, rate: Rate, grants: int, starts: nat, losses: nat, from: int, now: int)
    requires rate.requests >= 0 && Accounted(memory, rate, grants, starts, losses, from)
    requires from <= now <= from + rate.window && Fresh(memory, now)
    ensures var b := Counted(memory, rate, now);
      Accounted(Some(b), rate, grants + (if Decide(b, rate).allowed then 1 else 0), starts + 1, losses, from)
  {}

  lemma NextAccounts(memory: Option<Bucket>, rate: Rate, grants: int, starts: nat, losses: nat, from: int, now: int)
    requires rate.requests >= 0 && Accounted(memory, rate, grants, starts, losses, from) && !Fresh(memory, now)
    ensures var b := Counted(memory, rate, now);
      Accounted(Some(b), rate, grants + (if Decide(b, rate).allowed then 1 else 0), starts, losses, from)
  {}

  /** Before the interval there is nothing to account for. */
  lemma BeforeAccounts(memory: Option<Bucket>, rate: Rate, from: int)
    requires rate.requests >= 0
    ensures Accounted(memory, rate, 0, 0, 0, from)
  {}

  lemma AccountedBound(memory: Option<Bucket>, rate: Rate, grants: int, starts: nat, losses: nat, from: int)
    requires rate.requests >= 0 && Accounted(memory, rate, grants, starts, losses, from)
    ensures grants <= Budgets(losses + 2, rate.requests)
  {
    BudgetsMonotone(starts, losses + 1, rate.requests);
  }

  /** Past the interval nothing counts. */
  lemma {:induction false} NothingAfter(memory: Option<Bucket>, sights: seq<Sight>, rate: Rate, clock: int, from: int, until: int)
    requires Forward(sights, clock) && until < clock
    ensures GrantsSeen(memory, sights, rate, from, until) == 0 && LossesSeen(sights, clock, from, until) == 0
    decreases sights
  {
    if sights != [] {
      NothingAfter(Seen(memory, sights[0], rate), sights[1..], rate, ClockSeen(sights[0], clock), from, until);
    }
  }

  /** What a request within the interval adds to the accounts. */
  lemma RequestAccounts(memory: Option<Bucket>, now: int, rate: Rate, grants: nat, starts: nat, losses: nat, from: int)
    returns (nowStarts: nat)
    requires rate.requests >= 0 && Accounted(memory, rate, grants, starts, losses, from) && from <= now <= from + rate.window
    ensures Accounted(Seen(memory, Mine(now), rate), rate, grants + GrantSeen(memory, Mine(now), rate), nowStarts, losses, from)
  {
    nowStarts := starts;
    if Fresh(memory, now) {
      nowStarts := starts + 1;
      StartAccounts(memory, rate, grants, starts, losses, from, now);
    } else {
      NextAccounts(memory, rate, grants, starts, losses, from, now);
    }
  }

  lemma LossAccounts(memory: Option<Bucket>, rate: Rate, grants: nat, starts: nat, losses: nat, from: int)
    requires rate.requests >= 0 && Accounted(memory, rate, grants, starts, losses, from)
    ensures Accounted(None, rate, grants, starts, losses + 1, from)
  {}

  lemma {:induction false} AccountsBound(memory: Option<Bucket>, sights: seq<Sight>, rate: Rate, clock: int, from: int,
                                         grants: nat, starts: nat, losses: nat)
    requires rate.requests >= 0 && Forward(sights, clock) && clock <= from + rate.window
    requires Accounted(memory, rate, grants, starts, losses, from)
    requires clock < from ==> grants == 0 && starts == 0 && losses == 0
    ensures var until := from + rate.window;
      grants + GrantsSeen(memory, sights, rate, from, until)
      <= Budgets(losses + LossesSeen(sights, clock, from, until) + 2, rate.requests)
    decreases sights
  {
    var until := from + rate.window;
    AccountedBound(memory, rate, grants, starts, losses, from);
    if sights != [] {
      var sight := sights[0];
      if sight.Mine? {
        AccountsRequest(memory, sights, rate, clock, from, grants, starts, losses);
      } else if clock < from {
        BeforeAccounts(Seen(memory, sight, rate), rate, from);
        AccountsBound(Seen(memory, sight, rate), sights[1..], rate, clock, from, 0, 0, 0);
      } else if sight.Lost? {
        LossAccounts(memory, rate, grants, starts, losses, from);
        AccountsBound(None, sights[1..], rate, clock, from, grants, starts, losses + 1);
      } else {
        AccountsBound(memory, sights[1..], rate, clock, from, grants, starts, losses);
      }
    }
  }

  lemma {:induction false} AccountsRequest(memory: Option<Bucket>, sights: seq<Sight>, rate: Rate, clock: int, from: int,
                                           grants: nat, starts: nat, losses: nat)
    requires rate.requests >= 0 && Forward(sights, clock) && clock <= from + rate.window && sights != [] && sights[0].Mine?
    requires Accounted(memory, rate, grants, starts, losses, from)
    requires clock < from ==> grants == 0 && starts == 0 && losses == 0
    ensures var until := from + rate.window;
      grants + GrantsSeen(memory, sights, rate, from, until)
      <= Budgets(losses + LossesSeen(sights, clock, from, until) + 2, rate.requests)
    decreases sights, 0
  {
    var until := from + rate.window;
    var now := sights[0].now;
    var next := Seen(memory, sights[0], rate);
    if now > until {
      AccountedBound(memory, rate, grants, starts, losses, from);
      NothingAfter(next, sights[1..], rate, now, from, until);
    } else if now < from {
      BeforeAccounts(next, rate, from);
      AccountsBound(next, sights[1..], rate, now, from, 0, 0, 0);
    } else {
      var nowStarts := RequestAccounts(memory, now, rate, grants, starts, losses, from);
      AccountsBound(next, sights[1..], rate, now, from, grants + GrantSeen(memory, sights[0], rate), nowStarts, losses);
    }
  }

  lemma SeenWithinBudgets(memory: Option<Bucket>, sights: seq<Sight>, rate: Rate, clock: int, from: int, grants: nat, losses: nat)
    requires rate.requests >= 0 && Forward(sights, clock)
    requires grants == GrantsSeen(memory, sights, rate, from, from + rate.window)
    requires losses == LossesSeen(sights, clock, from, from + rate.window)
    ensures grants <= (losses + 2) * rate.requests
  {
    BudgetsMultiply(losses + 2, rate.requests);
    if clock <= from + rate.window {
      BeforeAccounts(memory, rate, from);
      AccountsBound(memory, sights, rate, clock, from, 0, 0, 0);
    } else {
      NothingAfter(memory, sights, rate, clock, from, from + rate.window);
    }
  }

  lemma ViewOfKey(s: Store, memory: Option<Bucket>, events: seq<Event>, clock: int, key: string, rate: Rate, from: int, until: int)
    returns (sights: seq<Sight>)
    requires WellFormed(s) && Possible(s, events) && Knows(s, memory, key)
    requires InOrder(events, key, rate, clock) && NeverLate(s, memory, events, key)
    ensures Forward(sights, clock)
    ensures Grants(s, events, key, from, until) == GrantsSeen(memory, sights, rate, from, until)
    ensures Losses(s, events, key, clock, from, until) == LossesSeen(sights, clock, from, until)
  {
    sights := Sights(s, events, key);
    GrantsAreSeen(s, memory, events, key, rate, clock, from, until);
    LossesAreSeen(s, events, key, clock, from, until);
    SightsForward(s, events, key, rate, clock);
  }

  /**
   * In any interval as long as its window a key is granted at most two budgets, and one more for
   * each time its live counter was dropped in that interval. What matters is that the key's own
   * requests come in the order of their times and none of them late.
   */
  lemma WindowBound(s: Store, memory: Option<Bucket>, events: seq<Event>, clock: int, key: string, rate: Rate, from: int)
    requires WellFormed(s) && Possible(s, events) && Knows(s, memory, key) && rate.requests >= 0
    requires InOrder(events, key, rate, clock) && NeverLate(s, memory, events, key)
    ensures var until := from + rate.window;
      Grants(s, events, key, from, until) <= (Losses(s, events, key, clock, from, until) + 2) * rate.requests
  {
    var until := from + rate.window;
    var sights := ViewOfKey(s, memory, events, clock, key, rate, from, until);
    SeenWithinBudgets(memory, sights, rate, clock, from, Grants(s, events, key, from, until), Losses(s, events, key, clock, from, until));
  }

  /** From an empty store, with all times in order, nothing else is needed. */
  lemma WindowBoundInOrder(perShard: nat, events: seq<Event>, clock: int, key: string, rate: Rate, from: int)
    requires Possible(EmptyStore(perShard), events) && Monotone(events, clock) && rate.requests >= 0
    requires forall i :: 0 <= i < |events| && Own(events[i], key) ==> events[i].rate == rate
    ensures var s, until := EmptyStore(perShard), from + rate.window;
      Grants(s, events, key, from, until) <= (Losses(s, events, key, clock, from, until) + 2) * rate.requests
  {
    var s := EmptyStore(perShard);
    assert Lookup(s, key) == None;
    MonotoneInOrder(events, key, rate, clock, clock);
    MonotoneNeverLate(s, None, events, clock, key, |events|);
    WindowBound(s, None, events, clock, key, rate, from);
  }

  lemma {:induction false} MonotoneInOrder(events: seq<Event>, key: string, rate: Rate, clock: int, own: int)
    requires Monotone(events, clock) && own <= clock && forall i :: 0 <= i < |events| && Own(events[i], key) ==> events[i].rate == rate
    ensures InOrder(events, key, rate, own)
    decreases events
  {
    if events != [] {
      assert forall i :: 0 <= i < |events| - 1 ==> events[1..][i] == events[i + 1];
      MonotoneInOrder(events[1..], key, rate, events[0].now, OwnClock(events[0], key, own));
    }
  }

  // ----- successive counters of one key -----

  predicate StartsNow(s: Store, e: Event, key: string)
    requires WellFormed(s)
  {
    Own(e, key) && Fresh(Lookup(s, key), e.now)
  }

  /** The next start of a counter of the key: its time, and whether its request is late. */
  datatype Start = Start(at: int, late: bool)

  /** The key's next start, unless the present counter is dropped alive before. */
  function NextStart(s: Store, memory: Option<Bucket>, events: seq<Event>, key: string): Option<Start>
    requires Possible(s, events)
    decreases events
  {
    if events == [] then None
    else if StartsNow(s, events[0], key) then Some(Start(events[0].now, Late(s, memory, events[0], key)))
    else if Loses(s, events[0], key) then None
    else NextStart(Step(s, events[0]), Remembered(s, memory, events[0], key), events[1..], key)
  }

  lemma {:induction false} NextStartAfter(s: Store, memory: Option<Bucket>, events: seq<Event>, key: string, resetAt: int)
    requires WellFormed(s) && Possible(s, events) && Knows(s, memory, key) && memory.Some? && memory.value.resetAt == resetAt
    ensures var next := NextStart(s, memory, events, key); next.Some? ==> (next.value.at > resetAt <==> !next.value.late)
    decreases events
  {
    if events != [] && !StartsNow(s, events[0], key) && !Loses(s, events[0], key) {
      StepKnows(s, memory, events[0], key);
      NextStartAfter(Step(s, events[0]), Remembered(s, memory, events[0], key), events[1..], key, resetAt);
    }
  }

  /** Two counters of a key that no live eviction separates start more than one window apart, unless the second request is late. */
  lemma StartsApart(s: Store, memory: Option<Bucket>, events: seq<Event>, key: string)
    requires WellFormed(s) && Possible(s, events) && Knows(s, memory, key) && events != [] && StartsNow(s, events[0], key)
    ensures var later := Remembered(s, memory, events[0], key);
      var next := NextStart(Step(s, events[0]), later, events[1..], key);
      next.Some? ==> (next.value.at > events[0].now + events[0].rate.window <==> !next.value.late)
  {
    StepKnows(s, memory, events[0], key);
    NextStartAfter(Step(s, events[0]), Remembered(s, memory, events[0], key), events[1..], key, events[0].now + events[0].rate.window);
  }

  /** Requests granted by the key's present counter, before the next one starts. */
  function CounterGrants(s: Store, events: seq<Event>, key: string): nat
    requires Possible(s, events)
    decreases events
  {
    if events == [] || StartsNow(s, events[0], key) then 0
    else GrantOf(s, events[0], key) + CounterGrants(Step(s, events[0]), events[1..], key)
  }

  predicate OneRate(events: seq<Event>, key: string, rate: Rate) {
    forall i :: 0 <= i < |events| && Own(events[i], key) ==> events[i].rate == rate
  }

  lemma RateOfFirst(events: seq<Event>, key: string, rate: Rate)
    requires OneRate(events, key, rate) && events != []
    ensures Own(events[0], key) ==> events[0].rate == rate
    ensures OneRate(events[1..], key, rate)
  {}

  /** A counter grants no more than what is left of its budget, whatever the times of the events. */
  lemma {:induction false} CounterBudget(s: Store, events: seq<Event>, key: string, rate: Rate)
    requires WellFormed(s) && Possible(s, events) && OneRate(events, key, rate) && rate.requests >= 0
    ensures CounterGrants(s, events, key) + Used(Lookup(s, key), rate.requests) <= rate.requests
    decreases events
  {
    if events != [] && !StartsNow(s, events[0], key) {
      StepLookup(s, events[0], key);
      RateOfFirst(events, key, rate);
      CounterBudget(Step(s, events[0]), events[1..], key, rate);
    }
  }
}
