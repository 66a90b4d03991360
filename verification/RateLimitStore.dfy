/**
 * The in-memory fixed-window counters (ratelimit/memory.go): sharded, bounded, evicting.
 * Time is an integer number of nanoseconds, a key is a string of bytes, and the order in which a
 * map is walked is part of the event.
 */
module RateLimitStore {
  import opened Outcomes

  const SHARDS: nat := 32
  const SAMPLE: nat := 8

  datatype Rate = Rate(requests: int, window: int)

  datatype Bucket = Bucket(count: nat, limit: int, resetAt: int)

  type Shard = map<string, Bucket>

  datatype Decision = Decision(allowed: bool, remaining: nat, resetAt: int)

  /** `perShard == 0` means no cap. */
  datatype Store = Store(shards: seq<Shard>, perShard: nat, evictions: nat, expired: nat)

  predicate WellFormed(s: Store) { |s.shards| == SHARDS }

  // ----- the hash -----

  const WORD: nat := 0x1_0000_0000

  type Word = n: nat | n < WORD

  function ByteOf(c: char): nat { (c as int) % 256 }

  /** Bitwise exclusive or. */
  function Xor(a: nat, b: nat): nat {
    if a == 0 then b else if b == 0 then a else (a + b) % 2 + 2 * Xor(a / 2, b / 2)
  }

  /** One round of 32-bit FNV-1a: the byte goes in, then the product wraps around. */
  function Mixed(h: Word, c: char): Word { (Xor(h, ByteOf(c)) * 16777619) % WORD }

  function Fnv(key: string): Word {
    if key == "" then 2166136261 else Mixed(Fnv(key[..|key| - 1]), key[|key| - 1])
  }

  function ShardIndex(key: string): (i: nat)
    ensures i < SHARDS
  {
    Fnv(key) % SHARDS
  }

  function ShardOf(s: Store, key: string): Shard
    requires WellFormed(s)
  {
    s.shards[ShardIndex(key)]
  }

  function Lookup(s: Store, key: string): Option<Bucket>
    requires WellFormed(s)
  {
    if key in ShardOf(s, key) then Some(ShardOf(s, key)[key]) else None
  }

  // ----- one counter -----

  predicate Over(b: Bucket, now: int) { now > b.resetAt }

  predicate Fresh(found: Option<Bucket>, now: int) { found.None? || Over(found.value, now) }

  /** The counter after one more request. */
  function Counted(found: Option<Bucket>, rate: Rate, now: int): Bucket {
    if Fresh(found, now) then Bucket(1, rate.requests, now + rate.window)
    else Bucket(found.value.count + 1, rate.requests, found.value.resetAt)
  }

  function Decide(b: Bucket, rate: Rate): Decision {
    var left := rate.requests - b.count;
    Decision(b.count <= rate.requests, if left < 0 then 0 else left, b.resetAt)
  }

  // ----- eviction -----

  function Headroom(b: Bucket): int { if b.limit - b.count < 0 then 0 else b.limit - b.count }

  /** The best victim so far; the empty key means there is none yet. */
  datatype Candidate = Candidate(key: string, headroom: int, resetAt: int)

  datatype Choice = Stale(key: string) | Live(key: string) | Nobody

  const NO_VICTIM := Candidate("", -1, 0)

  predicate Improves(best: Candidate, b: Bucket) {
    || best.key == ""
    || Headroom(b) > best.headroom
    || (Headroom(b) == best.headroom && b.resetAt < best.resetAt)
  }

  function Better(best: Candidate, key: string, b: Bucket): Candidate {
    if Improves(best, b) then Candidate(key, Headroom(b), b.resetAt) else best
  }

  predicate Within(shard: Shard, keys: seq<string>) { forall i :: 0 <= i < |keys| ==> keys[i] in shard }

  function Choose(shard: Shard, sample: seq<string>, now: int, best: Candidate): Choice
    requires Within(shard, sample)
  {
    if sample == [] then if best.key == "" then Nobody else Live(best.key)
    else if Over(shard[sample[0]], now) then Stale(sample[0])
    else Choose(shard, sample[1..], now, Better(best, sample[0], shard[sample[0]]))
  }

  /** Some order in which the map can be walked. */
  predicate IsOrder(shard: Shard, order: seq<string>) {
    && Within(shard, order) && |order| == |shard|
    && (forall i, j :: 0 <= i < j < |order| ==> order[i] != order[j])
  }

  /** The part of the walk that eviction looks at. */
  function Sampled(order: seq<string>): seq<string> { if |order| <= SAMPLE then order else order[..SAMPLE] }

  function Victim(shard: Shard, order: seq<string>, now: int): Choice
    requires IsOrder(shard, order)
  {
    Choose(shard, Sampled(order), now, NO_VICTIM)
  }

  function Evicted(s: Store, i: nat, choice: Choice): Store
    requires WellFormed(s) && i < SHARDS
  {
    match choice
    case Stale(k) => s.(shards := s.shards[i := s.shards[i] - {k}], expired := s.expired + 1)
    case Live(k) => s.(shards := s.shards[i := s.shards[i] - {k}], evictions := s.evictions + 1)
    case Nobody => s
  }

  // ----- the operations -----

  predicate MustEvict(s: Store, key: string)
    requires WellFormed(s)
  {
    Lookup(s, key).None? && s.perShard > 0 && |ShardOf(s, key)| >= s.perShard
  }

  /** What a request evicts, if anything. */
  function Removal(s: Store, key: string, now: int, order: seq<string>): Choice
    requires WellFormed(s) && IsOrder(ShardOf(s, key), order)
  {
    if MustEvict(s, key) then Victim(ShardOf(s, key), order, now) else Nobody
  }

  function Put(s: Store, key: string, b: Bucket): Store
    requires WellFormed(s)
  {
    s.(shards := s.shards[ShardIndex(key) := ShardOf(s, key)[key := b]])
  }

  function Allowed(s: Store, key: string, rate: Rate, now: int, order: seq<string>): Store
    requires WellFormed(s) && IsOrder(ShardOf(s, key), order)
  {
    Put(Evicted(s, ShardIndex(key), Removal(s, key, now, order)), key, Counted(Lookup(s, key), rate, now))
  }

  function Unexpired(shard: Shard, now: int): Shard { map k | k in shard && !Over(shard[k], now) :: shard[k] }

  function Entries(shards: seq<Shard>): nat { if shards == [] then 0 else |shards[0]| + Entries(shards[1..]) }

  function SweptShard(s: Store, i: nat, now: int): Store
    requires i < |s.shards|
  {
    var kept := Unexpired(s.shards[i], now);
    s.(shards := s.shards[i := kept], expired := s.expired + |s.shards[i].Keys - kept.Keys|)
  }

  function UnexpiredAll(shards: seq<Shard>, now: int): seq<Shard> {
    seq(|shards|, i requires 0 <= i < |shards| => Unexpired(shards[i], now))
  }

  function Removed(shards: seq<Shard>, now: int): nat {
    if shards == [] then 0 else |shards[0].Keys - Unexpired(shards[0], now).Keys| + Removed(shards[1..], now)
  }

  function Swept(s: Store, now: int): Store {
    s.(shards := UnexpiredAll(s.shards, now), expired := s.expired + Removed(s.shards, now))
  }

  /**
   * A request with the walk its eviction would take, or the sweep of one shard. Events are in the
   * order in which they hold the shard's lock; each has the time that was read for it before, so
   * the times of a run need not be in that order.
   */
  datatype Event = Allow(key: string, rate: Rate, now: int, order: seq<string>) | Sweep(shard: nat, now: int)

  predicate Fits(s: Store, e: Event) {
    WellFormed(s) && if e.Allow? then IsOrder(ShardOf(s, e.key), e.order) else e.shard < SHARDS
  }

  function Step(s: Store, e: Event): (r: Store)
    requires Fits(s, e)
    ensures WellFormed(r) && r.perShard == s.perShard
  {
    match e
    case Allow(key, rate, now, order) => Allowed(s, key, rate, now, order)
    case Sweep(shard, now) => SweptShard(s, shard, now)
  }

  /** The decision a request gets. */
  function Answer(s: Store, e: Event): Option<Decision>
    requires WellFormed(s)
  {
    if e.Allow? then Some(Decide(Counted(Lookup(s, e.key), e.rate, e.now), e.rate)) else None
  }

  /** The live counter an event drops. */
  function Dropped(s: Store, e: Event): Option<string>
    requires Fits(s, e)
  {
    if e.Allow? && Removal(s, e.key, e.now, e.order).Live? then Some(Removal(s, e.key, e.now, e.order).key) else None
  }

  /** The events can happen one after the other. */
  predicate Possible(s: Store, events: seq<Event>)
    decreases events
  {
    events != [] ==> Fits(s, events[0]) && Possible(Step(s, events[0]), events[1..])
  }

  /** The times read for the events are in the order of the events. */
  predicate Monotone(events: seq<Event>, clock: int)
    decreases events
  {
    events != [] ==> clock <= events[0].now && Monotone(events[1..], events[0].now)
  }

  function Final(s: Store, events: seq<Event>): Store
    requires Possible(s, events)
    decreases events
  {
    if events == [] then s else Final(Step(s, events[0]), events[1..])
  }

  function Answers(s: Store, events: seq<Event>): (r: seq<Option<Decision>>)
    requires Possible(s, events)
    ensures |r| == |events|
    decreases events
  {
    if events == [] then [] else [Answer(s, events[0])] + Answers(Step(s, events[0]), events[1..])
  }

  function Drops(s: Store, events: seq<Event>): (r: seq<Option<string>>)
    requires Possible(s, events)
    ensures |r| == |events|
    decreases events
  {
    if events == [] then [] else [Dropped(s, events[0])] + Drops(Step(s, events[0]), events[1..])
  }

  function EmptyStore(perShard: nat): (s: Store)
    ensures WellFormed(s)
  {
    Store(seq(SHARDS, i => map[]), perShard, 0, 0)
  }

  // ----- the store as an object -----

  /** The first `i` shards have been swept, dropping that many counters. */
  predicate SweptUpTo(before: seq<Shard>, i: nat, now: int, shards: seq<Shard>, dropped: int) {
    && i <= |before|
    && shards == UnexpiredAll(before[..i], now) + before[i..]
    && dropped + Removed(before[i..], now) == Removed(before, now)
  }

  lemma SweepStarts(before: seq<Shard>, now: int)
    ensures SweptUpTo(before, 0, now, before, 0)
  {}

  /** Replacing the next element of a list that is done up to it. */
  lemma NextDone(done: seq<Shard>, left: seq<Shard>, x: Shard)
    requires left != []
    ensures (done + left)[|done|] == left[0] && (done + left)[|done| := x] == done + [x] + left[1..]
  {}

  lemma UnexpiredAppend(before: seq<Shard>, i: nat, now: int)
    requires i < |before|
    ensures UnexpiredAll(before[..i + 1], now) == UnexpiredAll(before[..i], now) + [Unexpired(before[i], now)]
  {}

  lemma RemovedNext(before: seq<Shard>, i: nat, now: int)
    requires i < |before|
    ensures before[i..][0] == before[i] && before[i..][1..] == before[i + 1..]
    ensures Removed(before[i..], now) == |before[i].Keys - Unexpired(before[i], now).Keys| + Removed(before[i + 1..], now)
  {}

  lemma SweepNext(before: seq<Shard>, i: nat, now: int, shards: seq<Shard>, dropped: int)
    requires i < |before| && SweptUpTo(before, i, now, shards, dropped)
    ensures |shards| == |before| && shards[i] == before[i]
    ensures var kept := Unexpired(before[i], now);
      SweptUpTo(before, i + 1, now, shards[i := kept], dropped + |before[i].Keys - kept.Keys|)
  {
    NextDone(UnexpiredAll(before[..i], now), before[i..], Unexpired(before[i], now));
    RemovedNext(before, i, now);
    UnexpiredAppend(before, i, now);
  }

  lemma SweepEnds(before: seq<Shard>, now: int, shards: seq<Shard>, dropped: int)
    requires SweptUpTo(before, |before|, now, shards, dropped)
    ensures shards == UnexpiredAll(before, now) && dropped == Removed(before, now)
  {}

  class MemoryStore {
    var shards: seq<Shard>
    const perShard: nat
    const capacity: nat
    var evictions: nat
    var expired: nat

    function State(): Store
      reads this
    {
      Store(shards, perShard, evictions, expired)
    }

    predicate Valid()
      reads this
    {
      |shards| == SHARDS && capacity == perShard * SHARDS
    }

    /** The requested total is divided among the shards, with at least one counter each. */
    constructor (maxEntries: int)
      ensures Valid() && State() == EmptyStore(perShard)
      ensures maxEntries <= 0 ==> perShard == 0 && capacity == 0
      ensures maxEntries > 0 ==> perShard >= 1 && (capacity <= maxEntries < capacity + SHARDS || (maxEntries < SHARDS && capacity == SHARDS))
    {
      var each := 0;
      if maxEntries > 0 {
        each := maxEntries / SHARDS;
        if each < 1 {
          each := 1;
        }
      }
      perShard := each;
      capacity := each * SHARDS;
      shards := seq(SHARDS, i => map[]);
      evictions := 0;
      expired := 0;
    }

    method IndexOf(key: string) returns (i: nat)
      ensures i == ShardIndex(key)
    {
      var h: Word := 2166136261;
      for k := 0 to |key|
        invariant h == Fnv(key[..k])
      {
        assert key[..k + 1][..k] == key[..k];
        var mixed := Xor(h, ByteOf(key[k]));
        h := (mixed * 16777619) % WORD;
      }
      assert key[..|key|] == key;
      i := h % SHARDS;
    }

    /** Frees one slot of a full shard, walking it in the given order. */
    method Evict(i: nat, now: int, order: seq<string>)
      requires Valid() && i < SHARDS && IsOrder(shards[i], order)
      modifies this
      ensures Valid() && State() == old(Evicted(State(), i, Victim(shards[i], order, now)))
    {
      var shard := shards[i];
      var best := NO_VICTIM;
      var seen := 0;
      assert Sampled(order)[0..] == Sampled(order);
      while seen < |order| && seen < SAMPLE
        invariant 0 <= seen <= |Sampled(order)|
        invariant Choose(shard, Sampled(order)[seen..], now, best) == Victim(shard, order, now)
      {
        var k := order[seen];
        var b := shard[k];
        assert Sampled(order)[seen..][0] == k && Sampled(order)[seen..][1..] == Sampled(order)[seen + 1..];
        if Over(b, now) {
          shards := shards[i := shard - {k}];
          expired := expired + 1;
          return;
        }
        var headroom := b.limit - b.count;
        if headroom < 0 {
          headroom := 0;
        }
        if best.key == "" || headroom > best.headroom || (headroom == best.headroom && b.resetAt < best.resetAt) {
          best := Candidate(k, headroom, b.resetAt);
        }
        seen := seen + 1;
      }
      if best.key != "" {
        shards := shards[i := shard - {best.key}];
        evictions := evictions + 1;
      }
    }

    method Allow(key: string, rate: Rate, now: int, order: seq<string>) returns (decision: Decision)
      requires Valid() && IsOrder(ShardOf(State(), key), order)
      modifies this
      ensures Valid() && State() == old(Allowed(State(), key, rate, now, order))
      ensures Some(decision) == old(Answer(State(), Event.Allow(key, rate, now, order)))
    {
      var i := IndexOf(key);
      var found := key in shards[i];
      var b;
      if !found || now > shards[i][key].resetAt {
        if !found && perShard > 0 && |shards[i]| >= perShard {
          Evict(i, now, order);
        }
        b := Bucket(0, rate.requests, now + rate.window);
      } else {
        b := shards[i][key];
      }
      b := b.(count := b.count + 1, limit := rate.requests);
      shards := shards[i := shards[i][key := b]];
      var remaining := rate.requests - b.count;
      if remaining < 0 {
        remaining := 0;
      }
      decision := Decision(b.count <= rate.requests, remaining, b.resetAt);
    }

    /** Drops the expired counters of every shard, one shard at a time. */
    method Sweep(now: int)
      requires Valid()
      modifies this
      ensures Valid() && State() == old(Swept(State(), now))
    {
      ghost var before, already := shards, expired;
      SweepStarts(before, now);
      for i := 0 to SHARDS
        invariant Valid() && evictions == old(evictions)
        invariant SweptUpTo(before, i, now, shards, expired - already)
      {
        SweepNext(before, i, now, shards, expired - already);
        SweepOne(i, now);
      }
      SweepEnds(before, now, shards, expired - already);
    }

    method SweepOne(i: nat, now: int)
      requires Valid() && i < SHARDS
      modifies this
      ensures Valid() && State() == old(SweptShard(State(), i, now))
    {
      var kept, removed := SweepShard(shards[i], now);
      shards := shards[i := kept];
      if removed > 0 {
        expired := expired + removed;
      }
    }

    static method SweepShard(shard: Shard, now: int) returns (kept: Shard, removed: nat)
      ensures kept == Unexpired(shard, now) && removed == |shard.Keys - kept.Keys|
    {
      kept, removed := shard, 0;
      var keys := shard.Keys;
      while keys != {}
        invariant keys <= kept.Keys <= shard.Keys
        invariant forall k :: k in kept ==> kept[k] == shard[k]
        invariant forall k :: k in shard && k !in keys ==> (k in kept <==> !Over(shard[k], now))
        invariant removed == |shard.Keys - kept.Keys|
        decreases keys
      {
        var k :| k in keys;
        if Over(shard[k], now) {
          assert shard.Keys - (kept - {k}).Keys == (shard.Keys - kept.Keys) + {k};
          kept := kept - {k};
          removed := removed + 1;
        }
        keys := keys - {k};
      }
    }

    /** How many counters are held, and the ceiling. */
    method Occupancy() returns (entries: nat, ceiling: nat)
      requires Valid()
      ensures entries == Entries(shards) && ceiling == capacity
    {
      entries := 0;
      for i := 0 to SHARDS
        invariant entries + Entries(shards[i..]) == Entries(shards)
      {
        assert shards[i..][0] == shards[i] && shards[i..][1..] == shards[i + 1..];
        entries := entries + |shards[i]|;
      }
      ceiling := capacity;
    }
  }
}
