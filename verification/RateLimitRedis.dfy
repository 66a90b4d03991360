/**
 * The shared counters (redisstore/store.go): a script that reads, saturates and expires one
 * stored number, and the client that checks what it answers. The server's clock is an integer
 * number of microseconds that stands still during a script; keys expire by the millisecond.
 */
module RateLimitRedis {
  import opened Outcomes
  import opened RateLimitStore

  const MAX_INT32: int := 0x7fff_ffff
  const MILLISECOND: int := 1000000

  /** A stored number and when it expires, in milliseconds, if ever. */
  datatype Counter = Counter(count: int, expiresAt: Option<int>)

  datatype Reply = Reply(count: int, pttl: int, seconds: int, micros: int)

  datatype Error = InvalidRate | Backend | InvalidCounter | NoTtl | InvalidResponse

  function Millis(micros: nat): nat { micros / 1000 }

  /** What GET sees: a key whose time has passed is gone. */
  function Held(stored: Option<Counter>, now: nat): Option<Counter> {
    if stored.Some? && stored.value.expiresAt.Some? && now > stored.value.expiresAt.value then None else stored
  }

  /** The script: what it leaves stored, and its answer. */
  function Script(stored: Option<Counter>, limit: int, window: int, micros: nat): (Option<Counter>, Result<Reply, Error>) {
    var now := Millis(micros);
    match Held(stored, now)
    case None =>
      var first := Counter(1, Some(now + window));
      (Some(first), Ok(Reply(1, window, micros / 1000000, micros % 1000000)))
    case Some(c) =>
      if c.count < 1 || c.count > 2147483648 then (Some(c), Err(InvalidCounter))
      else if c.expiresAt.None? then (Some(c), Err(NoTtl))
      else
        var next := if c.count < limit + 1 then c.(count := c.count + 1) else c;
        (Some(next), Ok(Reply(next.count, c.expiresAt.value - now, micros / 1000000, micros % 1000000)))
  }

  /** A window in milliseconds, rounded up. */
  function WindowMillis(window: int): int
    requires window > 0
  {
    var whole := window / MILLISECOND;
    if window % MILLISECOND != 0 then whole + 1 else whole
  }

  predicate ValidRate(rate: Rate) { 1 <= rate.requests <= MAX_INT32 && rate.window > 0 }

  predicate ReplyAccepted(reply: Reply, ms: int) {
    reply.count >= 1 && 0 <= reply.pttl <= ms && reply.seconds >= 0 && 0 <= reply.micros < 1000000
  }

  function Decided(reply: Reply, rate: Rate): Decision {
    var left := rate.requests - reply.count;
    Decision(reply.count <= rate.requests, if left < 0 then 0 else left,
             (reply.seconds * 1000000 + reply.micros) * 1000 + reply.pttl * MILLISECOND)
  }

  /** One call that reaches the server and hears back. */
  function Call(stored: Option<Counter>, rate: Rate, micros: nat): (Option<Counter>, Result<Decision, Error>)
    requires ValidRate(rate)
  {
    var ms := WindowMillis(rate.window);
    var (later, reply) := Script(stored, rate.requests, ms, micros);
    match reply
    case Err(_) => (later, Err(Backend))
    case Ok(r) => (later, if ReplyAccepted(r, ms) then Ok(Decided(r, rate)) else Err(InvalidResponse))
  }

  /** Whether the command reaches the server and its reply the client. */
  datatype Network = Delivered | Lost(executed: bool)

  class Store {
    var counters: map<string, Counter>
    var allowed: nat
    var denied: nat
    var failures: nat

    constructor ()
      ensures counters == map[] && allowed == denied == failures == 0
    {
      counters := map[];
      allowed, denied, failures := 0, 0, 0;
    }

    function Stored(key: string): Option<Counter>
      reads this
    {
      if key in counters then Some(counters[key]) else None
    }

    method RunScript(key: string, limit: int, window: int, micros: nat) returns (reply: Result<Reply, Error>)
      modifies this`counters
      ensures (Stored(key), reply) == old(Script(Stored(key), limit, window, micros))
      ensures forall k :: k != key ==> Stored(k) == old(Stored(k))
    {
      var now := Millis(micros);
      var seconds, rest := micros / 1000000, micros % 1000000;
      var count := 0;
      if key in counters && (counters[key].expiresAt.None? || now <= counters[key].expiresAt.value) {
        count := counters[key].count;
        if count < 1 || count > 2147483648 {
          return Err(InvalidCounter);
        }
        if counters[key].expiresAt.None? {
          return Err(NoTtl);
        }
      }
      if count == 0 {
        count := 1;
        counters := counters[key := Counter(count, Some(now + window))];
      } else if count < limit + 1 {
        count := count + 1;
        counters := counters[key := counters[key].(count := count)];
      }
      reply := Ok(Reply(count, counters[key].expiresAt.value - now, seconds, rest));
    }

    /** An invalid rate touches nothing; a lost reply is a failure whether or not the script ran. */
    method Allow(key: string, rate: Rate, micros: nat, network: Network) returns (result: Result<Decision, Error>)
      modifies this
      ensures !ValidRate(rate) ==> result == Err(InvalidRate) && unchanged(this)
      ensures ValidRate(rate) && network.Delivered? ==> (Stored(key), result) == old(Call(Stored(key), rate, micros))
      ensures ValidRate(rate) && network.Lost? ==>
        && result == Err(Backend)
        && Stored(key) == if network.executed then old(Call(Stored(key), rate, micros)).0 else old(Stored(key))
      ensures forall k :: k != key ==> Stored(k) == old(Stored(k))
      ensures ValidRate(rate) ==>
        && allowed == old(allowed) + (if result.Ok? && result.value.allowed then 1 else 0)
        && denied == old(denied) + (if result.Ok? && !result.value.allowed then 1 else 0)
        && failures == old(failures) + (if result.Err? then 1 else 0)
    {
      if rate.requests < 1 || rate.requests > MAX_INT32 || rate.window <= 0 {
        return Err(InvalidRate);
      }
      var ms := rate.window / MILLISECOND;
      if rate.window % MILLISECOND != 0 {
        ms := ms + 1;
      }
      if network == Lost(false) {
        failures := failures + 1;
        return Err(Backend);
      }
      var reply := RunScript(key, rate.requests, ms, micros);
      if network.Lost? || reply.Err? {
        failures := failures + 1;
        return Err(Backend);
      }
      if !ReplyAccepted(reply.value, ms) {
        failures := failures + 1;
        return Err(InvalidResponse);
      }
      var decision := Decided(reply.value, rate);
      if decision.allowed {
        allowed := allowed + 1;
      } else {
        denied := denied + 1;
      }
      return Ok(decision);
    }
  }

  // ----- the rounding -----

  /** The millisecond window is the exact ceiling of the requested one. */
  lemma WindowIsCeiling(window: int)
    requires window > 0
    ensures var ms := WindowMillis(window); ms > 0 && (ms - 1) * MILLISECOND < window <= ms * MILLISECOND
  {
    assert window == window / MILLISECOND * MILLISECOND + window % MILLISECOND;
  }

  // ----- the stored number -----

  /** What this program ever stores. */
  predicate Sane(stored: Option<Counter>) {
    stored.Some? ==> 1 <= stored.value.count <= MAX_INT32 + 1 && stored.value.expiresAt.Some?
  }

  /** Under one rate the number stays between one and one more than the limit. */
  predicate Saturated(stored: Option<Counter>, limit: int) {
    stored.Some? ==> 1 <= stored.value.count <= limit + 1 && stored.value.expiresAt.Some?
  }

  /** Whatever rates a key is used with, the script never finds a number it rejects. */
  lemma ScriptNeverRejects(stored: Option<Counter>, rate: Rate, micros: nat)
    requires Sane(stored) && ValidRate(rate)
    ensures var (later, result) := Call(stored, rate, micros); Sane(later) && result != Err(Backend)
    ensures Call(stored, rate, micros).1.Err? ==> Call(stored, rate, micros).1 == Err(InvalidResponse)
  {}

  /** A reply is refused exactly when the key still runs on a longer window than the one asked for. */
  lemma RefusedExactly(stored: Option<Counter>, rate: Rate, micros: nat)
    requires Sane(stored) && ValidRate(rate)
    ensures Call(stored, rate, micros).1.Err? <==>
      var held := Held(stored, Millis(micros));
      held.Some? && held.value.expiresAt.value > Millis(micros) + WindowMillis(rate.window)
  {
    WindowIsCeiling(rate.window);
  }

  // ----- equality with the in-memory counter -----

  /** The in-memory counter of the same window, counting in milliseconds and without saturation. */
  predicate Mirrors(stored: Option<Counter>, found: Option<Bucket>, rate: Rate, clock: nat)
    requires ValidRate(rate)
  {
    if found.None? then stored.None?
    else
      && stored.Some? && stored.value.expiresAt == Some(found.value.resetAt) && found.value.count >= 1
      && stored.value.count == (if found.value.count <= rate.requests + 1 then found.value.count else rate.requests + 1)
      && found.value.resetAt <= clock + WindowMillis(rate.window)
  }

  function MillisRate(rate: Rate): Rate
    requires ValidRate(rate)
  {
    Rate(rate.requests, WindowMillis(rate.window))
  }

  predicate SameDecision(a: Result<Decision, Error>, b: Decision, micros: nat) {
    && a.Ok? && a.value.allowed == b.allowed && a.value.remaining == b.remaining
    && b.resetAt * MILLISECOND <= a.value.resetAt < (b.resetAt + 1) * MILLISECOND
  }

  lemma CallMirrors(stored: Option<Counter>, found: Option<Bucket>, rate: Rate, clock: nat, micros: nat)
    requires ValidRate(rate) && Mirrors(stored, found, rate, clock) && clock <= Millis(micros)
    ensures var b := Counted(found, MillisRate(rate), Millis(micros));
      var (later, result) := Call(stored, rate, micros);
      && Mirrors(later, Some(b), rate, Millis(micros))
      && SameDecision(result, Decide(b, MillisRate(rate)), micros)
  {
    WindowIsCeiling(rate.window);
    var now := Millis(micros);
    var b := Counted(found, MillisRate(rate), now);
    assert micros / 1000000 * 1000000 + micros % 1000000 == micros;
    assert micros * 1000 == now * MILLISECOND + (micros % 1000) * 1000;
  }

  function Answers(stored: Option<Counter>, rate: Rate, times: seq<nat>): (r: seq<Result<Decision, Error>>)
    requires ValidRate(rate)
    ensures |r| == |times|
    decreases times
  {
    if times == [] then []
    else
      var (later, result) := Call(stored, rate, times[0]);
      [result] + Answers(later, rate, times[1..])
  }

  /** One key of the unbounded in-memory map. */
  function MemoryAnswers(found: Option<Bucket>, rate: Rate, times: seq<nat>): (r: seq<Decision>)
    requires ValidRate(rate)
    ensures |r| == |times|
    decreases times
  {
    if times == [] then []
    else
      var b := Counted(found, MillisRate(rate), Millis(times[0]));
      [Decide(b, MillisRate(rate))] + MemoryAnswers(Some(b), rate, times[1..])
  }

  predicate Forward(times: seq<nat>, clock: nat) {
    times != [] ==> clock <= Millis(times[0]) && Forward(times[1..], Millis(times[0]))
  }

  lemma {:induction false} AnswersMirror(stored: Option<Counter>, found: Option<Bucket>, rate: Rate, clock: nat, times: seq<nat>, n: nat)
    requires ValidRate(rate) && Mirrors(stored, found, rate, clock) && Forward(times, clock) && n < |times|
    ensures SameDecision(Answers(stored, rate, times)[n], MemoryAnswers(found, rate, times)[n], times[n])
    decreases n
  {
    CallMirrors(stored, found, rate, clock, times[0]);
    if n > 0 {
      var b := Counted(found, MillisRate(rate), Millis(times[0]));
      AnswersMirror(Call(stored, rate, times[0]).0, Some(b), rate, Millis(times[0]), times[1..], n - 1);
    }
  }

  /**
   * Under one rate per key, every call succeeds and gets the decision of an unsaturated in-memory
   * counter over the window in milliseconds; the reset time it reports is that one to the millisecond.
   */
  lemma RedisMatchesMemory(rate: Rate, times: seq<nat>, clock: nat, n: nat)
    requires ValidRate(rate) && Forward(times, clock) && n < |times|
    ensures SameDecision(Answers(None, rate, times)[n], MemoryAnswers(None, rate, times)[n], times[n])
  {
    AnswersMirror(None, None, rate, clock, times, n);
  }

  function FinalCounter(stored: Option<Counter>, rate: Rate, times: seq<nat>): Option<Counter>
    requires ValidRate(rate)
    decreases times
  {
    if times == [] then stored else FinalCounter(Call(stored, rate, times[0]).0, rate, times[1..])
  }

  /** The stored number never leaves the range from one to one more than the limit. */
  lemma {:induction false} CounterSaturates(stored: Option<Counter>, rate: Rate, times: seq<nat>)
    requires ValidRate(rate) && Saturated(stored, rate.requests)
    ensures Saturated(FinalCounter(stored, rate, times), rate.requests)
    decreases times
  {
    if times != [] {
      CounterSaturates(Call(stored, rate, times[0]).0, rate, times[1..]);
    }
  }
}
