/**
 * Exactly when the in-memory store exceeds a shard's cap: an eviction that finds no victim. And a
 * sweep, shard by shard, is the sweep of the whole store when nothing happens in between.
 */
module RateLimitCapacity {
  import opened Outcomes
  import opened RateLimitStore
  import opened RateLimitBounds

  // ----- when there is no victim -----

  /** More headroom, or as much and an earlier expiry. */
  predicate Ahead(a: Bucket, b: Bucket) {
    Headroom(a) > Headroom(b) || (Headroom(a) == Headroom(b) && a.resetAt < b.resetAt)
  }

  predicate NoneOver(shard: Shard, sample: seq<string>, now: int)
    requires Within(shard, sample)
  {
    forall i :: 0 <= i < |sample| ==> !Over(shard[sample[i]], now)
  }

  /** The walk ends with the empty key, which is ahead of all before it: it then counts as no victim. */
  predicate EndsWithEmptyKey(shard: Shard, sample: seq<string>)
    requires Within(shard, sample)
  {
    && sample != [] && sample[|sample| - 1] == ""
    && forall i :: 0 <= i < |sample| - 1 ==> Ahead(shard[""], shard[sample[i]])
  }

  predicate AllDistinct(sample: seq<string>) { forall i, j :: 0 <= i < j < |sample| ==> sample[i] != sample[j] }

  lemma {:induction false} NamedKeeps(shard: Shard, sample: seq<string>, now: int, best: Candidate)
    requires Within(shard, sample) && Named(sample) && best.key != ""
    ensures !Choose(shard, sample, now, best).Nobody?
    decreases sample
  {
    if sample != [] && !Over(shard[sample[0]], now) {
      NamedKeeps(shard, sample[1..], now, Better(best, sample[0], shard[sample[0]]));
    }
  }

  /** The walk from the empty key on, when the keys before it have a best. */
  lemma FromEmptyKey(shard: Shard, seen: seq<string>, sample: seq<string>, now: int, best: Candidate)
    requires BestOf(shard, seen, best) && Named(seen) && Within(shard, sample) && sample != [] && sample[0] == "" && Named(sample[1..])
    ensures Choose(shard, sample, now, best).Nobody? <==>
      sample == [""] && !Over(shard[""], now) && forall i :: 0 <= i < |seen| ==> Ahead(shard[""], shard[seen[i]])
  {
    var next := Better(best, "", shard[""]);
    if !Over(shard[""], now) {
      if sample[1..] == [] {
        assert sample == [""];
      } else {
        NamedKeeps(shard, sample[2..], now, Better(next, sample[1], shard[sample[1]]));
        assert sample[1..][1..] == sample[2..];
      }
    }
  }

  lemma {:induction false} ChooseNobody(shard: Shard, seen: seq<string>, sample: seq<string>, now: int, best: Candidate)
    requires BestOf(shard, seen, best) && Named(seen) && Within(shard, sample) && AllDistinct(seen + sample) && NoneOver(shard, seen, now)
    requires seen + sample != []
    ensures Choose(shard, sample, now, best).Nobody? <==>
      NoneOver(shard, seen + sample, now) && EndsWithEmptyKey(shard, seen + sample)
    decreases sample
  {
    var all := seen + sample;
    if sample == [] {
      assert all == seen;
    } else if sample[0] == "" {
      assert forall i :: 1 <= i < |sample| ==> all[|seen| + i] == sample[i];
      assert all[|seen|] == "";
      FromEmptyKey(shard, seen, sample, now, best);
      if sample == [""] {
        assert all[..|seen|] == seen;
      } else {
        assert all[|all| - 1] == sample[|sample| - 1];
      }
    } else if Over(shard[sample[0]], now) {
      assert all[|seen|] == sample[0];
    } else {
      BetterKeepsBest(shard, seen, sample[0], best);
      assert seen + [sample[0]] + sample[1..] == all;
      ChooseNobody(shard, seen + [sample[0]], sample[1..], now, Better(best, sample[0], shard[sample[0]]));
    }
  }

  lemma OrderNotEmpty(shard: Shard, order: seq<string>)
    requires IsOrder(shard, order) && shard != map[]
    ensures order != []
  {
    var k :| k in shard;
    assert shard.Keys != {};
  }

  lemma SampleDistinct(shard: Shard, order: seq<string>)
    requires IsOrder(shard, order)
    ensures AllDistinct(Sampled(order))
  {
    var sample := Sampled(order);
    forall i, j | 0 <= i < j < |sample|
      ensures sample[i] != sample[j]
    {
      assert sample[i] == order[i] && sample[j] == order[j];
    }
  }

  /**
   * A full shard gives up nobody exactly when no sampled counter is over and the sample ends with
   * the empty key, which is ahead of every other sampled one.
   */
  lemma NobodyExactly(shard: Shard, order: seq<string>, now: int)
    requires IsOrder(shard, order) && shard != map[]
    ensures Victim(shard, order, now).Nobody? <==>
      NoneOver(shard, Sampled(order), now) && EndsWithEmptyKey(shard, Sampled(order))
  {
    OrderNotEmpty(shard, order);
    SampleDistinct(shard, order);
    assert [] + Sampled(order) == Sampled(order);
    ChooseNobody(shard, [], Sampled(order), now, NO_VICTIM);
  }

  // ----- when a cap is exceeded -----

  lemma {:induction false} ChosenIsThere(shard: Shard, sample: seq<string>, now: int, best: Candidate)
    requires Within(shard, sample) && (best.key == "" || best.key in shard)
    ensures var choice := Choose(shard, sample, now, best); !choice.Nobody? ==> choice.key in shard
    decreases sample
  {
    if sample != [] && !Over(shard[sample[0]], now) {
      ChosenIsThere(shard, sample[1..], now, Better(best, sample[0], shard[sample[0]]));
    }
  }

  lemma WithoutOne(shard: Shard, key: string)
    requires key in shard
    ensures |shard - {key}| == |shard| - 1
  {
    assert (shard - {key}).Keys == shard.Keys - {key} && |shard| == |shard.Keys| && |shard - {key}| == |(shard - {key}).Keys|;
  }

  lemma WithOne(shard: Shard, key: string, b: Bucket)
    ensures |shard[key := b]| == |shard| + if key in shard then 0 else 1
  {
    assert shard[key := b].Keys == shard.Keys + {key};
    assert |shard[key := b]| == |shard[key := b].Keys| && |shard| == |shard.Keys|;
  }

  /** How many counters the request's shard holds after it. */
  lemma AllowedCount(s: Store, key: string, rate: Rate, now: int, order: seq<string>)
    requires WellFormed(s) && IsOrder(ShardOf(s, key), order)
    ensures var removal := Removal(s, key, now, order);
      |ShardOf(Allowed(s, key, rate, now, order), key)|
      == |ShardOf(s, key)| + (if key in ShardOf(s, key) || !removal.Nobody? then 0 else 1)
  {
    var removal := Removal(s, key, now, order);
    var room := Evicted(s, ShardIndex(key), removal);
    if MustEvict(s, key) {
      ChosenIsThere(ShardOf(s, key), Sampled(order), now, NO_VICTIM);
    }
    if !removal.Nobody? {
      WithoutOne(ShardOf(s, key), removal.key);
    }
    WithOne(ShardOf(room, key), key, Counted(Lookup(s, key), rate, now));
  }

  /** The request finds its shard full and nobody to evict. */
  predicate FindsNoRoom(s: Store, e: Event)
    requires Fits(s, e)
  {
    && e.Allow? && MustEvict(s, e.key) && NoneOver(ShardOf(s, e.key), Sampled(e.order), e.now)
    && EndsWithEmptyKey(ShardOf(s, e.key), Sampled(e.order))
  }

  /** An event takes a store over its caps exactly when it is a request that finds no room. */
  lemma CapExactly(s: Store, e: Event)
    requires Fits(s, e) && Bounded(s)
    ensures Bounded(Step(s, e)) <==> !FindsNoRoom(s, e)
  {
    if e.Sweep? {
      KeysCount(Unexpired(s.shards[e.shard], e.now), s.shards[e.shard]);
    } else {
      AllowedCount(s, e.key, e.rate, e.now, e.order);
      if MustEvict(s, e.key) {
        NobodyExactly(ShardOf(s, e.key), e.order, e.now);
      }
      OtherShards(s, e);
    }
  }

  lemma OtherShards(s: Store, e: Event)
    requires Fits(s, e) && e.Allow?
    ensures forall i :: 0 <= i < SHARDS && i != ShardIndex(e.key) ==> Step(s, e).shards[i] == s.shards[i]
  {}

  /** Every state of the run is within the caps. */
  predicate AlwaysBounded(s: Store, events: seq<Event>)
    requires WellFormed(s) && Possible(s, events)
    decreases events
  {
    Bounded(s) && (events != [] ==> AlwaysBounded(Step(s, events[0]), events[1..]))
  }

  predicate AlwaysRoom(s: Store, events: seq<Event>)
    requires Possible(s, events)
    decreases events
  {
    events != [] ==> !FindsNoRoom(s, events[0]) && AlwaysRoom(Step(s, events[0]), events[1..])
  }

  lemma {:induction false} BoundedExactlyFrom(s: Store, events: seq<Event>)
    requires Possible(s, events) && Bounded(s)
    ensures AlwaysBounded(s, events) <==> AlwaysRoom(s, events)
    decreases events
  {
    if events != [] {
      CapExactly(s, events[0]);
      if Bounded(Step(s, events[0])) {
        BoundedExactlyFrom(Step(s, events[0]), events[1..]);
      }
    }
  }

  /**
   * Over any keys and times, a run stays within the caps exactly when no request for a new key finds
   * its shard full with a sample that ends in a best-placed empty key.
   */
  lemma CapacityExactly(perShard: nat, events: seq<Event>)
    requires Possible(EmptyStore(perShard), events)
    ensures AlwaysBounded(EmptyStore(perShard), events) <==> AlwaysRoom(EmptyStore(perShard), events)
  {
    BoundedExactlyFrom(EmptyStore(perShard), events);
  }

  // ----- what a request removes -----

  /** The counters of the request's shard that are there before and not after. */
  function Gone(s: Store, e: Event): set<string>
    requires Fits(s, e) && e.Allow?
  {
    ShardOf(s, e.key).Keys - ShardOf(Step(s, e), e.key).Keys
  }

  /** A new key meets a shard that holds as many counters as it may. */
  predicate MeetsFullShard(s: Store, e: Event)
    requires Fits(s, e) && e.Allow?
  {
    e.key !in s.shards[ShardIndex(e.key)] && s.perShard > 0 && |s.shards[ShardIndex(e.key)]| >= s.perShard
  }

  /** The removed counter is expired; or none of the sample is, and it has the most headroom, ties to the soonest expiry. */
  predicate BestOfSample(shard: Shard, sample: seq<string>, now: int, victim: string)
    requires Within(shard, sample)
  {
    && victim in sample && victim in shard
    && (|| Over(shard[victim], now)
        || forall i :: 0 <= i < |sample| ==> !Over(shard[sample[i]], now) && Preferred(shard[victim], shard[sample[i]]))
  }

  /** How the two counters tell of a removal. */
  predicate Tallied(s: Store, later: Store, shard: Shard, gone: set<string>, now: int) {
    && later.evictions == s.evictions + (if exists k :: k in gone && k in shard && !Over(shard[k], now) then 1 else 0)
    && later.expired == s.expired + (if exists k :: k in gone && k in shard && Over(shard[k], now) then 1 else 0)
  }

  lemma LiveIsNotOver(shard: Shard, sample: seq<string>, now: int, best: Candidate)
    requires Within(shard, sample) && (best.key == "" || (best.key in shard && !Over(shard[best.key], now)))
    ensures var choice := Choose(shard, sample, now, best);
      choice.Live? ==> choice.key in shard && !Over(shard[choice.key], now)
    decreases sample
  {
    if sample != [] && !Over(shard[sample[0]], now) {
      LiveIsNotOver(shard, sample[1..], now, Better(best, sample[0], shard[sample[0]]));
    }
  }

  /** What a choice takes out of a shard, and what it is counted as. */
  lemma ChoiceExactly(s: Store, e: Event)
    requires Fits(s, e) && e.Allow?
    ensures var shard := ShardOf(s, e.key);
      var choice := Removal(s, e.key, e.now, e.order);
      && (choice.Nobody? <==> !MeetsFullShard(s, e) || FindsNoRoom(s, e))
      && (choice.Stale? ==> choice.key in shard && Over(shard[choice.key], e.now))
      && (choice.Live? ==> choice.key in shard && !Over(shard[choice.key], e.now))
      && (!choice.Nobody? && Named(e.order) ==> BestOfSample(shard, Sampled(e.order), e.now, choice.key))
  {
    var shard := ShardOf(s, e.key);
    RemovalKinds(s, e);
    if MustEvict(s, e.key) {
      NobodyExactly(shard, e.order, e.now);
      LiveIsNotOver(shard, Sampled(e.order), e.now, NO_VICTIM);
      if Named(e.order) {
        VictimIsBest(shard, e.order, e.now);
      }
    }
  }

  /**
   * A request removes another counter if and only if its key is new and its shard is full, unless the
   * sample ends with a best-placed empty key; then it removes one, the best of the sample, and counts
   * it as expired or as evicted. Every other counter of every shard stays as it is.
   */
  lemma RemovesOnlyWhenFull(s: Store, e: Event)
    requires Fits(s, e) && e.Allow?
    ensures var shard := ShardOf(s, e.key);
      var later := Step(s, e);
      var gone := Gone(s, e);
      && (gone == {} <==> !MeetsFullShard(s, e) || FindsNoRoom(s, e))
      && (gone != {} ==> exists k :: k in shard && gone == {k} && (Named(e.order) ==> BestOfSample(shard, Sampled(e.order), e.now, k)))
      && ShardOf(later, e.key).Keys == shard.Keys - gone + {e.key}
      && (forall k :: k in shard && k !in gone && k != e.key ==> ShardOf(later, e.key)[k] == shard[k])
      && (forall i :: 0 <= i < SHARDS && i != ShardIndex(e.key) ==> later.shards[i] == s.shards[i])
      && Tallied(s, later, shard, gone, e.now)
  {
    var shard := ShardOf(s, e.key);
    var choice := Removal(s, e.key, e.now, e.order);
    ChoiceExactly(s, e);
    OtherShards(s, e);
    var room := Evicted(s, ShardIndex(e.key), choice);
    assert ShardOf(Step(s, e), e.key) == ShardOf(room, e.key)[e.key := Counted(Lookup(s, e.key), e.rate, e.now)];
    if choice.Nobody? {
      assert Gone(s, e) == {};
    } else {
      assert ShardOf(room, e.key) == shard - {choice.key} && choice.key != e.key;
      assert Gone(s, e) == {choice.key} && choice.key in Gone(s, e);
    }
  }

  // ----- below the caps -----

  /** The keys of the events that belong to shard `i`. */
  function KeysOf(events: seq<Event>, i: nat): set<string> {
    set k | 0 <= k < |events| && events[k].Allow? && ShardIndex(events[k].key) == i :: events[k].key
  }

  /** No shard is asked for more keys than it may hold. */
  predicate FewKeys(events: seq<Event>, perShard: nat) {
    perShard > 0 ==> forall i :: 0 <= i < SHARDS ==> |KeysOf(events, i)| <= perShard
  }

  /** The shards hold keys of these sets only. */
  predicate HoldsOnly(s: Store, keys: seq<set<string>>) {
    WellFormed(s) && |keys| == SHARDS && forall i :: 0 <= i < SHARDS ==> s.shards[i].Keys <= keys[i]
  }

  lemma StepHoldsOnly(s: Store, e: Event, keys: seq<set<string>>)
    requires Fits(s, e) && HoldsOnly(s, keys) && (e.Allow? ==> e.key in keys[ShardIndex(e.key)])
    ensures HoldsOnly(Step(s, e), keys)
  {
    if e.Allow? {
      RemovesOnlyWhenFull(s, e);
    }
  }

  /** No request for a new key of the run meets a full shard. */
  predicate NeverFull(s: Store, events: seq<Event>)
    requires Possible(s, events)
    decreases events
  {
    events != [] ==> (events[0].Allow? ==> !MeetsFullShard(s, events[0])) && NeverFull(Step(s, events[0]), events[1..])
  }

  lemma RoomForKeys(s: Store, e: Event, keys: seq<set<string>>)
    requires Fits(s, e) && HoldsOnly(s, keys) && e.Allow? && e.key in keys[ShardIndex(e.key)]
    requires s.perShard > 0 ==> |keys[ShardIndex(e.key)]| <= s.perShard
    ensures !MeetsFullShard(s, e)
  {
    var shard := ShardOf(s, e.key);
    if MeetsFullShard(s, e) {
      SubsetCount(shard.Keys + {e.key}, keys[ShardIndex(e.key)]);
      assert false;
    }
  }

  lemma {:induction false} NeverFullFrom(s: Store, events: seq<Event>, keys: seq<set<string>>)
    requires Possible(s, events) && HoldsOnly(s, keys)
    requires s.perShard > 0 ==> forall i :: 0 <= i < SHARDS ==> |keys[i]| <= s.perShard
    requires forall k :: 0 <= k < |events| && events[k].Allow? ==> events[k].key in keys[ShardIndex(events[k].key)]
    ensures NeverFull(s, events)
    decreases events
  {
    if events != [] {
      if events[0].Allow? {
        RoomForKeys(s, events[0], keys);
      }
      StepHoldsOnly(s, events[0], keys);
      NeverFullFrom(Step(s, events[0]), events[1..], keys);
    }
  }

  /** A store that is asked for no more keys of any shard than fit is never full when a new key comes. */
  lemma FewKeysNeverFull(perShard: nat, events: seq<Event>)
    requires Possible(EmptyStore(perShard), events) && FewKeys(events, perShard)
    ensures NeverFull(EmptyStore(perShard), events)
  {
    NeverFullFrom(EmptyStore(perShard), events, seq(SHARDS, i requires 0 <= i < SHARDS => KeysOf(events, i)));
  }

  lemma {:induction false} NeverFullDropsNone(s: Store, events: seq<Event>)
    requires Possible(s, events) && NeverFull(s, events)
    ensures Occurred(Drops(s, events)) == 0
    decreases events
  {
    if events != [] {
      if events[0].Allow? {
        ChoiceExactly(s, events[0]);
      }
      NeverFullDropsNone(Step(s, events[0]), events[1..]);
      assert Drops(s, events)[1..] == Drops(Step(s, events[0]), events[1..]);
    }
  }

  /**
   * In a run whose new keys never meet a full shard no live counter is evicted, so that every
   * decision up to a key's first late request is the unbounded map's.
   */
  lemma BelowCapsRefines(perShard: nat, events: seq<Event>, n: nat)
    requires Possible(EmptyStore(perShard), events) && NeverFull(EmptyStore(perShard), events)
    requires n < |events| && events[n].Allow? && NoneLate(EmptyStore(perShard), None, events, events[n].key, n)
    ensures Final(EmptyStore(perShard), events).evictions == 0
    ensures !LateAt(EmptyStore(perShard), None, events, events[n].key, n) ==>
              Answers(EmptyStore(perShard), events)[n] == PlainAnswers(map[], events)[n]
  {
    NeverFullDropsNone(EmptyStore(perShard), events);
    EvictionsAreDrops(EmptyStore(perShard), events);
    NoneOccurred(Drops(EmptyStore(perShard), events), events[n].key, n);
    RefinesUnboundedMap(perShard, events, n);
  }

  // ----- one sweep after the other -----

  /** The sweeps of the shards from the `i`-th on. */
  function Sweeps(i: nat, now: int): seq<Event>
    decreases SHARDS - i
  {
    if i >= SHARDS then [] else [Sweep(i, now)] + Sweeps(i + 1, now)
  }

  lemma SweepsNext(s: Store, i: nat, now: int)
    requires WellFormed(s) && i < SHARDS
    ensures Possible(s, Sweeps(i, now)) <==> Possible(SweptShard(s, i, now), Sweeps(i + 1, now))
    ensures Possible(s, Sweeps(i, now)) ==> Final(s, Sweeps(i, now)) == Final(SweptShard(s, i, now), Sweeps(i + 1, now))
  {
    assert ([Sweep(i, now)] + Sweeps(i + 1, now))[1..] == Sweeps(i + 1, now);
  }

  lemma {:induction false} SweepsFrom(s: Store, i: nat, now: int, before: seq<Shard>, dropped: int, shards: seq<Shard>, expired: int)
    requires WellFormed(s) && |before| == SHARDS && i <= SHARDS && SweptUpTo(before, i, now, s.shards, dropped)
    requires shards == UnexpiredAll(before, now) && expired == s.expired + Removed(before, now) - dropped >= 0
    ensures Possible(s, Sweeps(i, now)) && Final(s, Sweeps(i, now)) == s.(shards := shards, expired := expired)
    decreases SHARDS - i
  {
    if i == SHARDS {
      SweepEnds(before, now, s.shards, dropped);
    } else {
      SweepNext(before, i, now, s.shards, dropped);
      SweepsNext(s, i, now);
      SweepsFrom(SweptShard(s, i, now), i + 1, now, before, dropped + |before[i].Keys - Unexpired(before[i], now).Keys|, shards, expired);
    }
  }

  /** What a whole sweep does is what the sweeps of its shards do in turn. */
  lemma SweepIsItsShards(s: Store, now: int)
    requires WellFormed(s)
    ensures Possible(s, Sweeps(0, now)) && Final(s, Sweeps(0, now)) == Swept(s, now)
  {
    SweepStarts(s.shards, now);
    SweepsFrom(s, 0, now, s.shards, 0, Swept(s, now).shards, Swept(s, now).expired);
  }
}
