/**
 * What the bounded store guarantees: who is evicted, how much is held, when its decisions are
 * those of an unbounded map, and how many requests a key is granted in any window.
 */
module RateLimitBounds {
  import opened Outcomes
  import opened RateLimitStore

  // ----- the victim -----

  /** `best` is the best victim among the keys seen. */
  predicate BestOf(shard: Shard, seen: seq<string>, best: Candidate) {
    && Within(shard, seen)
    && (seen == [] ==> best == NO_VICTIM)
    && (seen != [] ==>
          && best.key in seen && best == Candidate(best.key, Headroom(shard[best.key]), shard[best.key].resetAt)
          && forall i :: 0 <= i < |seen| ==> Preferred(shard[best.key], shard[seen[i]]))
  }

  /** More headroom, or as much and no later expiry. */
  predicate Preferred(a: Bucket, b: Bucket) {
    Headroom(a) > Headroom(b) || (Headroom(a) == Headroom(b) && a.resetAt <= b.resetAt)
  }

  predicate Named(keys: seq<string>) { forall i :: 0 <= i < |keys| ==> keys[i] != "" }

  lemma BetterKeepsBest(shard: Shard, seen: seq<string>, key: string, best: Candidate)
    requires BestOf(shard, seen, best) && Named(seen) && key in shard
    ensures BestOf(shard, seen + [key], Better(best, key, shard[key]))
  {}

  lemma {:induction false} ChooseFinds(shard: Shard, seen: seq<string>, sample: seq<string>, now: int, best: Candidate)
    requires BestOf(shard, seen, best) && Named(seen) && Within(shard, sample) && Named(sample)
    requires forall i :: 0 <= i < |seen| ==> !Over(shard[seen[i]], now)
    ensures match Choose(shard, sample, now, best)
      case Stale(k) => k in sample && Over(shard[k], now)
      case Live(k) =>
        && (forall i :: 0 <= i < |sample| ==> !Over(shard[sample[i]], now))
        && k in shard && BestOf(shard, seen + sample, Candidate(k, Headroom(shard[k]), shard[k].resetAt))
      case Nobody => seen + sample == []
    decreases sample
  {
    if sample == [] {
      assert seen + sample == seen;
    } else if !Over(shard[sample[0]], now) {
      BetterKeepsBest(shard, seen, sample[0], best);
      ChooseFinds(shard, seen + [sample[0]], sample[1..], now, Better(best, sample[0], shard[sample[0]]));
      assert seen + [sample[0]] + sample[1..] == seen + sample;
    }
  }

  /**
   * An expired counter in the sample goes first. Otherwise the victim is the sampled counter with
   * most headroom, ties to the soonest expiry; over non-empty keys there always is one.
   */
  lemma VictimIsBest(shard: Shard, order: seq<string>, now: int)
    requires IsOrder(shard, order) && Named(order)
    ensures match Victim(shard, order, now)
      case Stale(k) => k in shard && k in Sampled(order) && Over(shard[k], now)
      case Live(k) =>
        && k in shard && k in Sampled(order)
        && (forall i :: 0 <= i < |Sampled(order)| ==>
              !Over(shard[Sampled(order)[i]], now) && Preferred(shard[k], shard[Sampled(order)[i]]))
      case Nobody => shard == map[]
  {
    var sample := Sampled(order);
    ChooseFinds(shard, [], sample, now, NO_VICTIM);
    assert [] + sample == sample;
  }

  // ----- the bound -----

  /** Every counter sits in its own key's shard, and no key is empty. */
  predicate Placed(s: Store) {
    && WellFormed(s)
    && forall i, k {:trigger k in s.shards[i]} :: 0 <= i < SHARDS && k in s.shards[i] ==> ShardIndex(k) == i && k != ""
  }

  predicate Bounded(s: Store) {
    WellFormed(s) && (s.perShard > 0 ==> forall i :: 0 <= i < SHARDS ==> |s.shards[i]| <= s.perShard)
  }

  lemma KeysCount(a: Shard, b: Shard)
    requires a.Keys <= b.Keys
    ensures |a| <= |b|
  {
    SubsetCount(a.Keys, b.Keys);
    assert |a| == |a.Keys| && |b| == |b.Keys|;
  }

  lemma {:induction false} SubsetCount<T>(a: set<T>, b: set<T>)
    requires a <= b
    ensures |a| <= |b|
  {
    if a != {} {
      var x :| x in a;
      SubsetCount(a - {x}, b - {x});
    }
  }

  /** A full shard of non-empty keys gives up exactly one counter. */
  lemma EvictionMakesRoom(s: Store, i: nat, order: seq<string>, now: int)
    requires WellFormed(s) && i < SHARDS && IsOrder(s.shards[i], order) && Named(order) && s.shards[i] != map[]
    ensures |Evicted(s, i, Victim(s.shards[i], order, now)).shards[i]| == |s.shards[i]| - 1
  {
    VictimIsBest(s.shards[i], order, now);
    var k := Victim(s.shards[i], order, now).key;
    assert (s.shards[i] - {k}).Keys == s.shards[i].Keys - {k};
  }

  predicate Boundable(s: Store) { Placed(s) && Bounded(s) }

  lemma PutKeepsBounds(s: Store, key: string, b: Bucket)
    requires Boundable(s) && key != ""
    requires s.perShard > 0 && key !in ShardOf(s, key) ==> |ShardOf(s, key)| < s.perShard
    ensures Boundable(Put(s, key, b))
  {}

  lemma EvictedKeepsBounds(s: Store, i: nat, choice: Choice)
    requires Boundable(s) && i < SHARDS
    ensures Boundable(Evicted(s, i, choice))
  {}

  lemma OrderNamed(s: Store, i: nat, order: seq<string>)
    requires Placed(s) && i < SHARDS && Within(s.shards[i], order)
    ensures Named(order)
  {}

  /** After its eviction a request for a new key finds room. */
  lemma RoomMade(s: Store, key: string, now: int, order: seq<string>)
    requires Boundable(s) && IsOrder(ShardOf(s, key), order) && MustEvict(s, key)
    ensures |ShardOf(Evicted(s, ShardIndex(key), Removal(s, key, now, order)), key)| < s.perShard
  {
    var i := ShardIndex(key);
    OrderNamed(s, i, order);
    EvictionMakesRoom(s, i, order, now);
  }

  lemma AllowedKeepsBounds(s: Store, key: string, rate: Rate, now: int, order: seq<string>)
    requires Boundable(s) && key != "" && IsOrder(ShardOf(s, key), order)
    ensures Boundable(Allowed(s, key, rate, now, order))
  {
    var room := Evicted(s, ShardIndex(key), Removal(s, key, now, order));
    EvictedKeepsBounds(s, ShardIndex(key), Removal(s, key, now, order));
    if MustEvict(s, key) {
      RoomMade(s, key, now, order);
    }
    PutKeepsBounds(room, key, Counted(Lookup(s, key), rate, now));
  }

  lemma SweptKeepsBounds(s: Store, shard: nat, now: int)
    requires Boundable(s) && shard < SHARDS
    ensures Boundable(SweptShard(s, shard, now))
  {
    KeysCount(Unexpired(s.shards[shard], now), s.shards[shard]);
  }

  predicate NonEmptyKeys(events: seq<Event>) {
    forall i :: 0 <= i < |events| && events[i].Allow? ==> events[i].key != ""
  }

  lemma {:induction false} RunKeepsBounds(s: Store, events: seq<Event>)
    requires Boundable(s) && Possible(s, events) && NonEmptyKeys(events)
    ensures Boundable(Final(s, events))
    decreases events
  {
    if events != [] {
      var e := events[0];
      if e.Allow? {
        AllowedKeepsBounds(s, e.key, e.rate, e.now, e.order);
      } else {
        SweptKeepsBounds(s, e.shard, e.now);
      }
      RunKeepsBounds(Step(s, e), events[1..]);
    }
  }

  lemma {:induction false} EntriesBound(shards: seq<Shard>, each: nat)
    requires forall i :: 0 <= i < |shards| ==> |shards[i]| <= each
    ensures Entries(shards) <= each * |shards|
  {
    if shards != [] {
      EntriesBound(shards[1..], each);
    }
  }

  /** Over non-empty keys no run ever holds more than its capacity, and each counter is where its hash says. */
  lemma CapacityHolds(perShard: nat, events: seq<Event>)
    requires Possible(EmptyStore(perShard), events) && NonEmptyKeys(events)
    ensures var s := Final(EmptyStore(perShard), events);
      Boundable(s) && s.perShard == perShard && (perShard > 0 ==> Entries(s.shards) <= perShard * SHARDS)
  {
    RunKeepsBounds(EmptyStore(perShard), events);
    FinalCap(EmptyStore(perShard), events);
    if perShard > 0 {
      EntriesBound(Final(EmptyStore(perShard), events).shards, perShard);
    }
  }

  lemma {:induction false} FinalCap(s: Store, events: seq<Event>)
    requires Possible(s, events)
    ensures Final(s, events).perShard == s.perShard
    decreases events
  {
    if events != [] {
      FinalCap(Step(s, events[0]), events[1..]);
    }
  }

  lemma XorOfB()
    ensures Xor(2166136261, 98) == 2166136231
  {
    assert Xor(16922939, 0) == 16922939;
    assert Xor(33845879, 1) == 33845878;
    assert Xor(67691758, 3) == 67691757;
    assert Xor(135383516, 6) == 135383514;
    assert Xor(270767032, 12) == 270767028;
    assert Xor(541534065, 24) == 541534057;
    assert Xor(1083068130, 49) == 1083068115;
  }

  lemma FnvOfOne(c: char, byte: nat)
    requires ByteOf(c) == byte
    ensures Fnv([c]) == (Xor(2166136261, byte) * 16777619) % WORD
  {}

  lemma Remainder(a: nat, d: nat, q: nat, r: nat)
    requires d > 0 && a == d * q + r && r < d
    ensures a % d == r
  {
    var k: int := q - a / d;
    assert d * k == a % d - r;
    assert k >= 1 ==> d * k >= d;
    assert k <= -1 ==> d * k + d <= 0;
  }

  lemma SameRemainder(mixed: nat)
    requires mixed == 2166136231
    ensures ((mixed * 16777619) % WORD) % SHARDS == 2166136261 % SHARDS
  {
    Remainder(mixed * 16777619, WORD, 8461672, 3876335077);
    Remainder(3876335077, SHARDS, 121135471, 5);
    Remainder(2166136261, SHARDS, 67691758, 5);
  }

  lemma EmptyAndBShareAShard()
    ensures ShardIndex("") == ShardIndex("b")
  {
    var mixed := Xor(2166136261, 98);
    XorOfB();
    SameRemainder(mixed);
    FnvOfOne('b', 98);
    assert ShardIndex("b") == ((mixed * 16777619) % WORD) % SHARDS;
  }

  /**
   * Without non-empty keys the cap can be exceeded: a shard full with the empty key has no victim,
   * so the next key of that shard is added on top.
   */
  lemma EmptyKeyOverflows()
    ensures var rate := Rate(1, 10);
      var events := [Allow("", rate, 0, []), Allow("b", rate, 1, [""])];
      && Possible(EmptyStore(1), events)
      && |Final(EmptyStore(1), events).shards[ShardIndex("")]| == 2
  {
    EmptyAndBShareAShard();
    var rate := Rate(1, 10);
    var a, b := Allow("", rate, 0, []), Allow("b", rate, 1, [""]);
    var s0 := EmptyStore(1);
    var i := ShardIndex("");
    assert s0.shards[i] == map[];
    var s1 := Step(s0, a);
    assert s1.shards[i] == map["" := Bucket(1, 1, 10)];
    assert [""][0] in s1.shards[i];
    assert Fits(s1, b);
    assert Removal(s1, "b", 1, [""]) == Nobody by {
      assert Sampled([""]) == [""] && [""][1..] == [];
      assert Better(NO_VICTIM, "", s1.shards[i][""]).key == "";
    }
    var s2 := Step(s1, b);
    assert s2.shards[i] == map["" := Bucket(1, 1, 10), "b" := Bucket(1, 1, 11)];
    assert Possible(s2, []);
    assert [a, b][1..] == [b] && [b][1..] == [];
    assert Possible(s1, [b]) && Final(s1, [b]) == s2;
  }

  // ----- refinement of the unbounded map -----

  type Windows = map<string, Bucket>

  function Found(windows: Windows, key: string): Option<Bucket> {
    if key in windows then Some(windows[key]) else None
  }

  /** One unbounded map of fixed windows, never swept. */
  function PlainStep(windows: Windows, e: Event): Windows {
    if e.Allow? then windows[e.key := Counted(Found(windows, e.key), e.rate, e.now)] else windows
  }

  function PlainAnswer(windows: Windows, e: Event): Option<Decision> {
    if e.Allow? then Some(Decide(Counted(Found(windows, e.key), e.rate, e.now), e.rate)) else None
  }

  function PlainAnswers(windows: Windows, events: seq<Event>): (r: seq<Option<Decision>>)
    ensures |r| == |events|
    decreases events
  {
    if events == [] then [] else [PlainAnswer(windows, events[0])] + PlainAnswers(PlainStep(windows, events[0]), events[1..])
  }

  /** What an event does to the counter of any key. */
  lemma StepLookup(s: Store, e: Event, key: string)
    requires Fits(s, e)
    ensures var later := Lookup(Step(s, e), key);
      if e.Allow? && e.key == key then later == Some(Counted(Lookup(s, key), e.rate, e.now))
      else (
        || later == Lookup(s, key)
        || (later.None? && Lookup(s, key).Some? && (Over(Lookup(s, key).value, e.now) || Dropped(s, e) == Some(key))))
  {
    if e.Allow? {
      EvictedLookup(s, ShardIndex(e.key), Removal(s, e.key, e.now, e.order), key);
      RemovalKinds(s, e);
    }
  }

  lemma EvictedLookup(s: Store, i: nat, choice: Choice, key: string)
    requires WellFormed(s) && i < SHARDS
    ensures Lookup(Evicted(s, i, choice), key) == Lookup(s, key)
      || (!choice.Nobody? && choice.key == key && i == ShardIndex(key) && Lookup(Evicted(s, i, choice), key).None?)
  {}

  /** Only expired counters are removed without being reported as dropped. */
  lemma RemovalKinds(s: Store, e: Event)
    requires Fits(s, e) && e.Allow?
    ensures var choice := Removal(s, e.key, e.now, e.order);
      choice.Stale? ==> choice.key in ShardOf(s, e.key) && Over(ShardOf(s, e.key)[choice.key], e.now)
  {
    if MustEvict(s, e.key) {
      StaleIsOver(ShardOf(s, e.key), Sampled(e.order), e.now, NO_VICTIM);
    }
  }

  lemma {:induction false} StaleIsOver(shard: Shard, sample: seq<string>, now: int, best: Candidate)
    requires Within(shard, sample)
    ensures var choice := Choose(shard, sample, now, best);
      choice.Stale? ==> choice.key in shard && Over(shard[choice.key], now)
    decreases sample
  {
    if sample != [] && !Over(shard[sample[0]], now) {
      StaleIsOver(shard, sample[1..], now, Better(best, sample[0], shard[sample[0]]));
    }
  }

  // ----- what a key's counter was -----

  /** The event drops the key's counter alive. */
  predicate Loses(s: Store, e: Event, key: string)
    requires Fits(s, e)
  {
    Dropped(s, e) == Some(key) && Lookup(Step(s, e), key).None?
  }

  /** The key's latest counter, unless it was dropped alive; one removed as expired is remembered. */
  function Remembered(s: Store, memory: Option<Bucket>, e: Event, key: string): Option<Bucket>
    requires Fits(s, e)
  {
    if e.Allow? && e.key == key then Some(Counted(Lookup(s, key), e.rate, e.now))
    else if Loses(s, e, key) then None
    else memory
  }

  /** The store has what is remembered, or has forgotten it. */
  predicate Knows(s: Store, memory: Option<Bucket>, key: string)
    requires WellFormed(s)
  {
    Lookup(s, key).Some? ==> memory == Lookup(s, key)
  }

  /**
   * A request of the key whose counter was removed as expired, although the request's own time is
   * still within it: it read the clock before the counter ended and got the lock after the removal.
   */
  predicate Late(s: Store, memory: Option<Bucket>, e: Event, key: string)
    requires WellFormed(s)
  {
    e.Allow? && e.key == key && Lookup(s, key).None? && memory.Some? && !Over(memory.value, e.now)
  }

  /** None of the first `n` events is a late request of the key. */
  predicate NoneLate(s: Store, memory: Option<Bucket>, events: seq<Event>, key: string, n: nat)
    requires Possible(s, events)
    decreases events
  {
    n > 0 && events != [] ==>
      !Late(s, memory, events[0], key) && NoneLate(Step(s, events[0]), Remembered(s, memory, events[0], key), events[1..], key, n - 1)
  }

  /** The event after the first `n` is. */
  predicate LateAt(s: Store, memory: Option<Bucket>, events: seq<Event>, key: string, n: nat)
    requires Possible(s, events) && n < |events|
    decreases events
  {
    if n == 0 then Late(s, memory, events[0], key)
    else LateAt(Step(s, events[0]), Remembered(s, memory, events[0], key), events[1..], key, n - 1)
  }

  lemma StepKnows(s: Store, memory: Option<Bucket>, e: Event, key: string)
    requires Fits(s, e) && Knows(s, memory, key)
    ensures Knows(Step(s, e), Remembered(s, memory, e, key), key)
  {
    StepLookup(s, e, key);
  }

  /** A request that is not late counts as if nothing had been forgotten. */
  lemma CountsRemembered(s: Store, memory: Option<Bucket>, e: Event, key: string)
    requires WellFormed(s) && Knows(s, memory, key) && e.Allow? && e.key == key && !Late(s, memory, e, key)
    ensures Counted(Lookup(s, key), e.rate, e.now) == Counted(memory, e.rate, e.now)
  {}

  /** What the store has forgotten, unless it was dropped alive, ended before the clock. */
  predicate ForgottenOver(s: Store, memory: Option<Bucket>, clock: int, key: string)
    requires WellFormed(s)
  {
    Lookup(s, key).None? && memory.Some? ==> Over(memory.value, clock)
  }

  /** An event in order is not late, and keeps what is remembered so. */
  lemma OrderedStep(s: Store, memory: Option<Bucket>, e: Event, clock: int, key: string)
    requires Fits(s, e) && clock <= e.now && Knows(s, memory, key) && ForgottenOver(s, memory, clock, key)
    ensures !Late(s, memory, e, key)
    ensures Knows(Step(s, e), Remembered(s, memory, e, key), key)
    ensures ForgottenOver(Step(s, e), Remembered(s, memory, e, key), e.now, key)
  {
    StepLookup(s, e, key);
  }

  /** When the times are in order, no request is late. */
  lemma {:induction false} MonotoneNeverLate(s: Store, memory: Option<Bucket>, events: seq<Event>, clock: int, key: string, n: nat)
    requires WellFormed(s) && Possible(s, events) && Monotone(events, clock) && Knows(s, memory, key)
    requires ForgottenOver(s, memory, clock, key)
    ensures NoneLate(s, memory, events, key, n)
    ensures n < |events| ==> !LateAt(s, memory, events, key, n)
    decreases events
  {
    if events != [] {
      OrderedStep(s, memory, events[0], clock, key);
      if n > 0 {
        MonotoneNeverLate(Step(s, events[0]), Remembered(s, memory, events[0], key), events[1..], events[0].now, key, n - 1);
      }
    }
  }

  /** While nothing was dropped alive and no request was late, what is remembered is the unbounded map's. */
  lemma StepAgrees(s: Store, windows: Windows, e: Event, key: string)
    requires Fits(s, e) && Knows(s, Found(windows, key), key)
    ensures var later := Remembered(s, Found(windows, key), e, key);
      !Late(s, Found(windows, key), e, key) && Dropped(s, e) != Some(key) ==> later == Found(PlainStep(windows, e), key)
    ensures e.Allow? && e.key == key && !Late(s, Found(windows, key), e, key) ==> Answer(s, e) == PlainAnswer(windows, e)
  {
    if e.Allow? && e.key == key && !Late(s, Found(windows, key), e, key) {
      CountsRemembered(s, Found(windows, key), e, key);
    }
  }

  /** A late request gets a counter of its own, which its decision shows. */
  lemma LateDiffers(s: Store, windows: Windows, e: Event, key: string)
    requires WellFormed(s) && Late(s, Found(windows, key), e, key) && e.rate.requests >= 1 && Found(windows, key).value.count >= 1
    ensures Answer(s, e) != PlainAnswer(windows, e)
  {}

  /** The key's counter is dropped alive by none of the first `n` events. */
  predicate Kept(drops: seq<Option<string>>, key: string, n: nat) {
    forall j :: 0 <= j < n && j < |drops| ==> drops[j] != Some(key)
  }

  lemma Tails(s: Store, windows: Windows, events: seq<Event>, n: nat)
    requires Possible(s, events) && n + 1 < |events|
    ensures var later := Step(s, events[0]);
      && Answers(s, events)[n + 1] == Answers(later, events[1..])[n]
      && PlainAnswers(windows, events)[n + 1] == PlainAnswers(PlainStep(windows, events[0]), events[1..])[n]
  {
    AnswersTail(s, events);
    PlainAnswersTail(windows, events);
  }

  lemma AnswersTail(s: Store, events: seq<Event>)
    requires Possible(s, events) && events != []
    ensures Answers(s, events)[1..] == Answers(Step(s, events[0]), events[1..])
  {
    assert Answers(s, events) == [Answer(s, events[0])] + Answers(Step(s, events[0]), events[1..]);
  }

  lemma PlainAnswersTail(windows: Windows, events: seq<Event>)
    requires events != []
    ensures PlainAnswers(windows, events)[1..] == PlainAnswers(PlainStep(windows, events[0]), events[1..])
  {
    assert PlainAnswers(windows, events) == [PlainAnswer(windows, events[0])] + PlainAnswers(PlainStep(windows, events[0]), events[1..]);
  }

  lemma KeptTail(s: Store, events: seq<Event>, key: string, n: nat)
    requires Possible(s, events) && events != [] && Kept(Drops(s, events), key, n + 1)
    ensures Dropped(s, events[0]) != Some(key)
    ensures Kept(Drops(Step(s, events[0]), events[1..]), key, n)
  {
    var rest := Drops(Step(s, events[0]), events[1..]);
    assert Drops(s, events) == [Dropped(s, events[0])] + rest;
    KeptRest(Dropped(s, events[0]), rest, key, n);
  }

  lemma KeptRest(first: Option<string>, rest: seq<Option<string>>, key: string, n: nat)
    requires Kept([first] + rest, key, n + 1)
    ensures first != Some(key) && Kept(rest, key, n)
  {
    var drops := [first] + rest;
    assert drops[0] == first;
    assert forall j :: 0 <= j < |rest| ==> rest[j] == drops[j + 1];
  }

  /** Counters in use have counted something. */
  predicate Counting(windows: Windows) { forall key :: key in windows ==> windows[key].count >= 1 }

  /** The event after the first `n` gets the unbounded map's decision, unless it is late. */
  predicate SameUnlessLate(s: Store, windows: Windows, events: seq<Event>, key: string, n: nat)
    requires Possible(s, events) && n < |events|
  {
    var late := LateAt(s, Found(windows, key), events, key, n);
    var same := Answers(s, events)[n] == PlainAnswers(windows, events)[n];
    (!late ==> same) && (events[n].Allow? && events[n].rate.requests >= 1 ==> (same <==> !late))
  }

  lemma SameNow(s: Store, windows: Windows, events: seq<Event>, key: string)
    requires WellFormed(s) && Possible(s, events) && events != [] && events[0].Allow? && events[0].key == key
    requires Knows(s, Found(windows, key), key) && Counting(windows)
    ensures SameUnlessLate(s, windows, events, key, 0)
  {
    StepAgrees(s, windows, events[0], key);
    if Late(s, Found(windows, key), events[0], key) && events[0].rate.requests >= 1 {
      LateDiffers(s, windows, events[0], key);
    }
  }

  lemma SameLater(s: Store, windows: Windows, events: seq<Event>, key: string, n: nat)
    requires WellFormed(s) && Possible(s, events) && n + 1 < |events|
    requires Remembered(s, Found(windows, key), events[0], key) == Found(PlainStep(windows, events[0]), key)
    requires SameUnlessLate(Step(s, events[0]), PlainStep(windows, events[0]), events[1..], key, n)
    ensures SameUnlessLate(s, windows, events, key, n + 1)
  {
    Tails(s, windows, events, n);
  }

  /** A first event after which the same holds for the rest. */
  lemma OneOnTime(s: Store, windows: Windows, events: seq<Event>, key: string, n: nat)
    requires WellFormed(s) && Possible(s, events) && n + 1 < |events| && Knows(s, Found(windows, key), key) && Counting(windows)
    requires Kept(Drops(s, events), key, n + 1) && NoneLate(s, Found(windows, key), events, key, n + 1)
    ensures var e := events[0]; var later := PlainStep(windows, e);
      && Remembered(s, Found(windows, key), e, key) == Found(later, key)
      && Knows(Step(s, e), Found(later, key), key) && Counting(later)
      && Kept(Drops(Step(s, e), events[1..]), key, n) && NoneLate(Step(s, e), Found(later, key), events[1..], key, n)
  {
    KeptTail(s, events, key, n);
    StepAgrees(s, windows, events[0], key);
    StepKnows(s, Found(windows, key), events[0], key);
  }

  lemma {:induction false} SameDecisionFrom(s: Store, windows: Windows, events: seq<Event>, key: string, n: nat)
    requires WellFormed(s) && Possible(s, events) && n < |events| && events[n].Allow? && events[n].key == key
    requires Knows(s, Found(windows, key), key) && Counting(windows)
    requires Kept(Drops(s, events), key, n) && NoneLate(s, Found(windows, key), events, key, n)
    ensures SameUnlessLate(s, windows, events, key, n)
    decreases n
  {
    if n == 0 {
      SameNow(s, windows, events, key);
    } else {
      OneOnTime(s, windows, events, key, n - 1);
      SameDecisionFrom(Step(s, events[0]), PlainStep(windows, events[0]), events[1..], key, n - 1);
      SameLater(s, windows, events, key, n - 1);
    }
  }

  /**
   * Until its counter is dropped alive and until its first late request, a key gets exactly the
   * decisions of one unbounded map, in whatever order the events' times were read: sharding, sweeps
   * and expired evictions, of this and of every other key, cannot be seen. The late request itself
   * gets another decision whenever its rate allows any request at all.
   */
  lemma RefinesUnboundedMap(perShard: nat, events: seq<Event>, n: nat)
    requires Possible(EmptyStore(perShard), events) && n < |events| && events[n].Allow?
    requires Kept(Drops(EmptyStore(perShard), events), events[n].key, n)
    requires NoneLate(EmptyStore(perShard), None, events, events[n].key, n)
    ensures var late := LateAt(EmptyStore(perShard), None, events, events[n].key, n);
      var same := Answers(EmptyStore(perShard), events)[n] == PlainAnswers(map[], events)[n];
      (!late ==> same) && (events[n].rate.requests >= 1 ==> (same <==> !late))
  {
    assert Lookup(EmptyStore(perShard), events[n].key) == None;
    SameDecisionFrom(EmptyStore(perShard), map[], events, events[n].key, n);
  }

  /** Three events one after the other: what the third is answered. */
  lemma ThirdAnswer(s: Store, a: Event, b: Event, d: Event)
    requires Fits(s, a) && Fits(Step(s, a), b) && Fits(Step(Step(s, a), b), d)
    ensures Possible(s, [a, b, d]) && Answers(s, [a, b, d])[2] == Answer(Step(Step(s, a), b), d)
  {
    var s1, s2 := Step(s, a), Step(Step(s, a), b);
    assert [a, b, d][1..] == [b, d] && [b, d][1..] == [d] && [d][1..] == [];
    assert Possible(s2, [d]) && Possible(s1, [b, d]);
    assert Answers(s2, [d])[0] == Answer(s2, d);
    assert Answers(s1, [b, d])[1] == Answers(s2, [d])[0];
  }

  lemma ThirdPlainAnswer(w: Windows, a: Event, b: Event, d: Event)
    ensures PlainAnswers(w, [a, b, d])[2] == PlainAnswer(PlainStep(PlainStep(w, a), b), d)
  {
    var w1, w2 := PlainStep(w, a), PlainStep(PlainStep(w, a), b);
    assert [a, b, d][1..] == [b, d] && [b, d][1..] == [d] && [d][1..] == [];
    assert PlainAnswers(w2, [d])[0] == PlainAnswer(w2, d);
    assert PlainAnswers(w1, [b, d])[1] == PlainAnswers(w2, [d])[0];
  }

  /** A first request and a sweep after its window. */
  lemma SweptAway(key: string, window: nat)
    ensures var a, b := Allow(key, Rate(1, window), 0, []), Sweep(ShardIndex(key), window + 1);
      && Fits(EmptyStore(0), a) && Fits(Step(EmptyStore(0), a), b)
      && var s := Step(Step(EmptyStore(0), a), b); s.perShard == 0 && ShardOf(s, key) == map[]
  {
    var a := Allow(key, Rate(1, window), 0, []);
    var s0 := EmptyStore(0);
    assert ShardOf(s0, key) == map[];
    var s1 := Step(s0, a);
    assert ShardOf(s1, key) == map[key := Bucket(1, 1, window)];
  }

  /** A counter that a sweep took for expired is started again by a request that had read the clock before. */
  lemma LateRequestStartsAgain(key: string, window: nat)
    ensures var rate := Rate(1, window);
      var events := [Allow(key, rate, 0, []), Sweep(ShardIndex(key), window + 1), Allow(key, rate, window, [])];
      && Possible(EmptyStore(0), events)
      && Answers(EmptyStore(0), events)[2] == Some(Decision(true, 0, 2 * window))
      && PlainAnswers(map[], events)[2] == Some(Decision(false, 0, window))
  {
    var rate := Rate(1, window);
    var a, b, d := Allow(key, rate, 0, []), Sweep(ShardIndex(key), window + 1), Allow(key, rate, window, []);
    SweptAway(key, window);
    ThirdAnswer(EmptyStore(0), a, b, d);
    ThirdPlainAnswer(map[], a, b, d);
  }

  function Occurred(drops: seq<Option<string>>): nat {
    if drops == [] then 0 else (if drops[0].Some? then 1 else 0) + Occurred(drops[1..])
  }

  /** The eviction counter counts exactly the live counters dropped. */
  lemma {:induction false} EvictionsAreDrops(s: Store, events: seq<Event>)
    requires Possible(s, events)
    ensures Final(s, events).evictions == s.evictions + Occurred(Drops(s, events))
    decreases events
  {
    if events != [] {
      EvictionsAreDrops(Step(s, events[0]), events[1..]);
      assert Drops(s, events)[1..] == Drops(Step(s, events[0]), events[1..]);
    }
  }

  lemma {:induction false} NoneOccurred(drops: seq<Option<string>>, key: string, n: nat)
    requires Occurred(drops) == 0
    ensures Kept(drops, key, n)
    decreases drops
  {
    if drops != [] {
      NoneOccurred(drops[1..], key, n);
      forall j | 0 <= j < n && j < |drops|
        ensures drops[j] != Some(key)
      {
        assert j > 0 ==> drops[j] == drops[1..][j - 1];
      }
    }
  }

  /** While the eviction counter reads zero and the times are in order, every decision is the unbounded map's. */
  lemma RefinesWithoutEvictions(perShard: nat, events: seq<Event>, clock: int, n: nat)
    requires Possible(EmptyStore(perShard), events) && n < |events| && events[n].Allow?
    requires Final(EmptyStore(perShard), events).evictions == 0 && Monotone(events, clock)
    ensures Answers(EmptyStore(perShard), events)[n] == PlainAnswers(map[], events)[n]
  {
    EvictionsAreDrops(EmptyStore(perShard), events);
    NoneOccurred(Drops(EmptyStore(perShard), events), events[n].key, n);
    MonotoneNeverLate(EmptyStore(perShard), None, events, clock, events[n].key, n);
    RefinesUnboundedMap(perShard, events, n);
  }
}
