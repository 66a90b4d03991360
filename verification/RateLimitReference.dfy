/**
 * What the decisions of fixed windows are, without a store: a window of a key starts with the first
 * of its requests that comes after the end of the one before, and a request is granted while it is
 * among the first that its rate allows in its window.
 */
module RateLimitReference {
  import opened Outcomes
  import opened RateLimitStore
  import opened RateLimitBounds
  import opened RateLimitWindows

  function Init(events: seq<Event>): seq<Event>
    requires events != []
  {
    events[..|events| - 1]
  }

  function Last(events: seq<Event>): Event
    requires events != []
  {
    events[|events| - 1]
  }

  function EndOf(e: Event): int
    requires e.Allow?
  {
    e.now + e.rate.window
  }

  /** The position of the request that started the key's current window. */
  function WindowStart(events: seq<Event>, key: string): (p: Option<nat>)
    ensures p.Some? ==> p.value < |events| && Own(events[p.value], key)
  {
    if events == [] then None
    else
      var before := WindowStart(Init(events), key);
      if Own(Last(events), key) && (before.None? || Last(events).now > EndOf(events[before.value])) then Some(|events| - 1)
      else before
  }

  /** How many requests of the key there are. */
  function Requests(events: seq<Event>, key: string): nat {
    if events == [] then 0 else Requests(Init(events), key) + if Own(Last(events), key) then 1 else 0
  }

  /** The limit of the key's latest request. */
  function LatestLimit(events: seq<Event>, key: string): int {
    if events == [] then 0
    else if Own(Last(events), key) then Last(events).rate.requests
    else LatestLimit(Init(events), key)
  }

  /** The key's counter, by its definition. */
  function Reference(events: seq<Event>, key: string): Option<Bucket> {
    var p := WindowStart(events, key);
    if p.None? then None
    else Some(Bucket(Requests(events[p.value..], key), LatestLimit(events, key), EndOf(events[p.value])))
  }

  /** The windows of the unbounded map after the events. */
  function PlainAfter(windows: Windows, events: seq<Event>): Windows
    decreases events
  {
    if events == [] then windows else PlainAfter(PlainStep(windows, events[0]), events[1..])
  }

  lemma {:induction false} PlainAfterLast(windows: Windows, events: seq<Event>)
    requires events != []
    ensures PlainAfter(windows, events) == PlainStep(PlainAfter(windows, Init(events)), Last(events))
    decreases events
  {
    if |events| > 1 {
      PlainAfterLast(PlainStep(windows, events[0]), events[1..]);
      assert Init(events[1..]) == Init(events)[1..] && Last(events[1..]) == Last(events);
    } else {
      assert Init(events) == [] && events[1..] == [];
    }
  }

  lemma {:induction false} PlainAnswersAre(windows: Windows, events: seq<Event>, n: nat)
    requires n < |events|
    ensures PlainAnswers(windows, events)[n] == PlainAnswer(PlainAfter(windows, events[..n]), events[n])
    decreases n
  {
    if n > 0 {
      PlainAnswersAre(PlainStep(windows, events[0]), events[1..], n - 1);
      assert events[..n][1..] == events[1..][..n - 1];
    }
  }

  lemma RequestsFrom(events: seq<Event>, p: nat, key: string)
    requires p < |events|
    ensures Requests(events[p..], key) == Requests(Init(events)[p..], key) + if Own(Last(events), key) then 1 else 0
  {
    assert Init(events[p..]) == Init(events)[p..] && Last(events[p..]) == Last(events);
  }

  /** One more event, seen by the definition. */
  lemma ReferenceStep(events: seq<Event>, key: string)
    requires events != []
    ensures Reference(events, key) ==
      if Own(Last(events), key) then Some(Counted(Reference(Init(events), key), Last(events).rate, Last(events).now))
      else Reference(Init(events), key)
  {
    var p := WindowStart(events, key);
    if p.Some? {
      RequestsFrom(events, p.value, key);
      if p.value == |events| - 1 {
        assert Init(events)[p.value..] == [];
      }
    }
  }

  /** The unbounded map holds the defined counter of every key. */
  lemma {:induction false} PlainIsReference(events: seq<Event>, key: string)
    ensures Found(PlainAfter(map[], events), key) == Reference(events, key)
  {
    if events != [] {
      PlainAfterLast(map[], events);
      PlainIsReference(Init(events), key);
      ReferenceStep(events, key);
    }
  }

  /** The requests of the key in the window of the request at `n`, that one included. */
  function Position(events: seq<Event>, n: nat): nat
    requires n < |events| && events[n].Allow?
  {
    var upTo := events[..n + 1];
    var p := WindowStart(upTo, events[n].key);
    if p.Some? then Requests(upTo[p.value..], events[n].key) else 0
  }

  function WindowEnd(events: seq<Event>, n: nat): int
    requires n < |events| && events[n].Allow?
  {
    var p := WindowStart(events[..n + 1], events[n].key);
    if p.Some? then EndOf(events[p.value]) else 0
  }

  /** A request is granted while it is among the first of its window that its rate allows, and is told what is left. */
  predicate FixedWindowDecision(events: seq<Event>, n: nat, d: Decision)
    requires n < |events| && events[n].Allow?
  {
    var left := events[n].rate.requests - Position(events, n);
    d.allowed == (left >= 0) && d.remaining == (if left >= 0 then left else 0) && d.resetAt == WindowEnd(events, n)
  }

  lemma PlainDecides(events: seq<Event>, n: nat)
    requires n < |events| && events[n].Allow?
    ensures PlainAnswers(map[], events)[n].Some? && FixedWindowDecision(events, n, PlainAnswers(map[], events)[n].value)
  {
    var upTo := events[..n + 1];
    PlainAnswersAre(map[], events, n);
    PlainIsReference(events[..n], events[n].key);
    assert Init(upTo) == events[..n] && Last(upTo) == events[n];
    ReferenceStep(upTo, events[n].key);
  }

  /**
   * Until its counter is evicted alive and until its first late request, every request of a key is
   * decided by its place in its window, whatever happens to other keys.
   */
  lemma DecidedByWindow(perShard: nat, events: seq<Event>, n: nat)
    requires Possible(EmptyStore(perShard), events) && n < |events| && events[n].Allow?
    requires Kept(Drops(EmptyStore(perShard), events), events[n].key, n)
    requires NoneLate(EmptyStore(perShard), None, events, events[n].key, n)
    requires !LateAt(EmptyStore(perShard), None, events, events[n].key, n)
    ensures var answer := Answers(EmptyStore(perShard), events)[n];
      answer.Some? && FixedWindowDecision(events, n, answer.value)
  {
    RefinesUnboundedMap(perShard, events, n);
    PlainDecides(events, n);
  }

  /** A first event after which the same holds for the rest. */
  lemma HoldsNext(s: Store, windows: Windows, events: seq<Event>, key: string)
    requires WellFormed(s) && Possible(s, events) && events != [] && Knows(s, Found(windows, key), key)
    requires Kept(Drops(s, events), key, |events|) && NoneLate(s, Found(windows, key), events, key, |events|)
    ensures var next := Step(s, events[0]);
      var later := PlainStep(windows, events[0]);
      && Knows(next, Found(later, key), key)
      && Kept(Drops(next, events[1..]), key, |events| - 1) && NoneLate(next, Found(later, key), events[1..], key, |events| - 1)
  {
    KeptTail(s, events, key, |events| - 1);
    StepAgrees(s, windows, events[0], key);
    StepKnows(s, Found(windows, key), events[0], key);
  }

  lemma {:induction false} HoldsPlain(s: Store, windows: Windows, events: seq<Event>, key: string)
    requires WellFormed(s) && Possible(s, events) && Knows(s, Found(windows, key), key)
    requires Kept(Drops(s, events), key, |events|) && NoneLate(s, Found(windows, key), events, key, |events|)
    ensures WellFormed(Final(s, events)) && Knows(Final(s, events), Found(PlainAfter(windows, events), key), key)
    decreases events
  {
    if events != [] {
      HoldsNext(s, windows, events, key);
      HoldsPlain(Step(s, events[0]), PlainStep(windows, events[0]), events[1..], key);
    }
  }

  /** The counter that the store holds for such a key, its limit included, is the defined one. */
  lemma HoldsReference(perShard: nat, events: seq<Event>, key: string)
    requires Possible(EmptyStore(perShard), events)
    requires Kept(Drops(EmptyStore(perShard), events), key, |events|)
    requires NoneLate(EmptyStore(perShard), None, events, key, |events|)
    ensures var s := Final(EmptyStore(perShard), events);
      WellFormed(s) && (Lookup(s, key).Some? ==> Lookup(s, key) == Reference(events, key))
  {
    assert Lookup(EmptyStore(perShard), key) == None;
    HoldsPlain(EmptyStore(perShard), map[], events, key);
    PlainIsReference(events, key);
  }
}
