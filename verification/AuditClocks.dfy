/**
 * The clocks of audit delivery (audit/webhook.go, audit/service.go, audit/dispatcher.go):
 * saturating worst-case times, the webhook's retry loop, backoff and the validated configuration.
 * Durations are nanoseconds in a signed 64-bit word.
 */
module AuditClocks {
  import opened Outcomes

  const MAX: int := 0x7fff_ffff_ffff_ffff
  const WORD: int := 0x1_0000_0000_0000_0000

  /** What a 64-bit addition or multiplication leaves. */
  function Wrap(x: int): (r: int)
    ensures -MAX - 1 <= r <= MAX
    ensures -MAX - 1 <= x <= MAX ==> r == x
    ensures x >= 0 ==> r <= x
  {
    (x + MAX + 1) % WORD - MAX - 1
  }

  function Min(a: int, b: int): int { if a <= b then a else b }

  function SaturatingAdd(a: int, b: int): int { if b > 0 && a > MAX - b then MAX else Wrap(a + b) }

  function SaturatingMul(d: int, n: int): int {
    if d <= 0 || n <= 0 then 0 else if d > MAX / n then MAX else Wrap(d * n)
  }

  function Pow2(n: nat): (r: nat)
    ensures r >= n + 1
  {
    if n == 0 then 1 else 2 * Pow2(n - 1)
  }

  lemma AddSaturates(a: int, b: int)
    requires 0 <= a <= MAX && 0 <= b <= MAX
    ensures SaturatingAdd(a, b) == Min(MAX, a + b)
  {}

  lemma MulSaturates(d: int, n: int)
    requires 0 <= d && 0 <= n
    ensures SaturatingMul(d, n) == Min(MAX, d * n)
  {
    if d > 0 && n > 0 {
      if d > MAX / n {
        assert (MAX / n + 1) * n > MAX;
        assert d * n >= (MAX / n + 1) * n;
      } else {
        assert d * n <= MAX / n * n <= MAX;
      }
    }
  }

  lemma MinTimes(x: int, n: int)
    requires x >= 0 && n >= 1
    ensures Min(MAX, Min(MAX, x) * n) == Min(MAX, x * n)
  {}

  // ----- the webhook's worst case -----

  /** Waiting before every retry: the base wait, doubling. */
  function Waits(wait: nat, retries: nat): nat { wait * (Pow2(retries) - 1) }

  /** All attempts of one event time out, after all waits. */
  function WorstEvent(timeout: nat, wait: nat, retries: nat): nat { (retries + 1) * timeout + Waits(wait, retries) }

  function WorstBatch(batch: nat, timeout: nat, wait: nat, retries: nat): nat { batch * WorstEvent(timeout, wait, retries) }

  lemma WaitsNext(wait: nat, retries: nat)
    ensures Waits(wait, retries + 1) == Waits(wait, retries) + wait * Pow2(retries)
  {}

  lemma DoubledWait(wait: nat, retries: nat)
    ensures wait * Pow2(retries + 1) == wait * Pow2(retries) * 2
  {}

  lemma {:induction false} WaitsMonotone(wait: nat, few: nat, many: nat)
    requires few <= many
    ensures Waits(wait, few) <= Waits(wait, many)
  {
    if few < many {
      WaitsMonotone(wait, few, many - 1);
      WaitsNext(wait, many - 1);
    }
  }

  /** A configured webhook: a retry count needs a wait; a custom client may have no timeout. */
  predicate ValidWebhook(wait: int, retries: int) {
    0 <= wait <= MAX && 0 <= retries <= MAX && (retries > 0 ==> wait > 0)
  }

  /** The part of the worst case that needs no waiting, as computed: the retry count plus one can wrap around. */
  function Attempting(timeout: nat, retries: nat): int { SaturatingMul(timeout, Wrap(retries + 1)) }

  lemma LongWaits(wait: nat, retries: nat)
    requires wait > 0 && retries >= MAX
    ensures Waits(wait, retries) >= MAX
  {}

  lemma AttemptingExact(timeout: nat, wait: nat, retries: nat)
    requires 0 < timeout <= MAX && ValidWebhook(wait, retries)
    ensures Min(MAX, Attempting(timeout, retries) + Waits(wait, retries)) == Min(MAX, WorstEvent(timeout, wait, retries))
  {
    if retries < MAX {
      MulSaturates(timeout, retries + 1);
      assert timeout * (retries + 1) == (retries + 1) * timeout;
    } else {
      LongWaits(wait, retries);
    }
  }

  /** The declared bound is the exact worst case, cut off at the longest duration. */
  method MaxBatchDeliveryTime(batch: int, timeout: int, wait: int, retries: int) returns (time: int, bounded: bool)
    requires timeout <= MAX && ValidWebhook(wait, retries)
    ensures bounded <==> batch > 0 && timeout > 0
    ensures bounded ==> time == Min(MAX, WorstBatch(batch, timeout, wait, retries))
  {
    if batch <= 0 || timeout <= 0 {
      return 0, false;
    }
    var perEvent := SaturatingMul(timeout, Wrap(retries + 1));
    ghost var base := Attempting(timeout, retries);
    AttemptingRange(timeout, retries);
    var delay := wait;
    var retry := 0;
    while retry < retries && perEvent < MAX
      invariant 0 <= retry <= retries
      invariant perEvent == Min(MAX, base + Waits(wait, retry))
      invariant delay == Min(MAX, wait * Pow2(retry))
    {
      LoopStep(base, wait, retry);
      perEvent := SaturatingAdd(perEvent, delay);
      delay := SaturatingMul(delay, 2);
      retry := retry + 1;
    }
    WaitsMonotone(wait, retry, retries);
    AttemptingExact(timeout, wait, retries);
    assert perEvent == Min(MAX, WorstEvent(timeout, wait, retries));
    MulSaturates(perEvent, batch);
    MinTimes(WorstEvent(timeout, wait, retries), batch);
    return SaturatingMul(perEvent, batch), true;
  }

  lemma AttemptingRange(timeout: nat, retries: nat)
    requires 0 < timeout <= MAX && retries <= MAX
    ensures 0 <= Attempting(timeout, retries) <= MAX
  {
    if Wrap(retries + 1) > 0 {
      MulSaturates(timeout, Wrap(retries + 1));
    }
  }

  lemma LoopStep(base: nat, wait: nat, retry: nat)
    requires base <= MAX && wait <= MAX
    ensures var delay := Min(MAX, wait * Pow2(retry));
      && SaturatingAdd(Min(MAX, base + Waits(wait, retry)), delay) == Min(MAX, base + Waits(wait, retry + 1))
      && SaturatingMul(delay, 2) == Min(MAX, wait * Pow2(retry + 1))
  {
    var delay := Min(MAX, wait * Pow2(retry));
    WaitsNext(wait, retry);
    DoubledWait(wait, retry);
    AddSaturates(Min(MAX, base + Waits(wait, retry)), delay);
    MulSaturates(delay, 2);
    MinTimes(wait * Pow2(retry), 2);
  }

  // ----- one delivery -----

  datatype Response = Accepted | Transient | Permanent

  /** One attempt: how long it took, how it ended, and after how long the context ended during the wait before it, if it did. */
  datatype Attempt = Attempt(duration: nat, response: Response, cancelled: Option<nat>)

  predicate Timely(attempts: seq<Attempt>, timeout: nat) {
    forall i :: 0 <= i < |attempts| ==> attempts[i].duration <= timeout
  }

  /** The doubling wait of the retry loop, which wraps around, never exceeds the exact one. */
  predicate WaitBelow(delay: int, exact: nat) { delay <= exact && delay <= MAX && (delay < 0 ==> exact > MAX) }

  lemma WaitDoubles(delay: int, exact: nat)
    requires WaitBelow(delay, exact) && delay >= -MAX - 1
    ensures WaitBelow(Wrap(2 * delay), 2 * exact)
  {}

  /** How long a wait lasts: a negative one fires at once, and the context can end it. */
  function Slept(delay: int, cancelled: Option<nat>): nat {
    var full := if delay < 0 then 0 else delay;
    if cancelled.Some? && cancelled.value < full then cancelled.value else full
  }

  /** The attempt that settles the event: all before it were transient failures. */
  predicate Decides(attempts: seq<Attempt>, i: nat) {
    && i < |attempts| && !attempts[i].response.Transient?
    && forall j :: 0 <= j < i ==> attempts[j].response.Transient?
  }

  ghost predicate Delivered(attempts: seq<Attempt>) { exists i: nat :: Decides(attempts, i) && attempts[i].response.Accepted? }

  /** What is left of an event's delivery from attempt `i` on: whether it succeeds, and how long it takes. */
  function PostFrom(attempts: seq<Attempt>, i: nat, delay: int): (bool, nat)
    requires i <= |attempts|
    decreases |attempts| - i
  {
    if i == |attempts| then (false, 0)
    else
      var slept := if i == 0 then 0 else Slept(delay, attempts[i].cancelled);
      if i > 0 && attempts[i].cancelled.Some? && attempts[i].cancelled.value < delay then (false, slept)
      else
        var spent := slept + attempts[i].duration;
        if !attempts[i].response.Transient? then (attempts[i].response.Accepted?, spent)
        else
          var rest := PostFrom(attempts, i + 1, if i == 0 then delay else Wrap(2 * delay));
          (rest.0, spent + rest.1)
  }

  /** One event, with the responses that will come. */
  method Post(wait: nat, retries: nat, attempts: seq<Attempt>) returns (ok: bool, elapsed: nat)
    requires |attempts| == retries + 1
    ensures (ok, elapsed) == PostFrom(attempts, 0, wait)
    ensures ok ==> Delivered(attempts)
    ensures !ok && (forall i :: 0 <= i <= retries ==> attempts[i].cancelled.None?) ==> !Delivered(attempts)
  {
    elapsed := 0;
    var delay: int := wait;
    var attempt := 0;
    while attempt <= retries
      invariant 0 <= attempt <= retries + 1
      invariant forall j :: 0 <= j < attempt ==> attempts[j].response.Transient?
      invariant PostFrom(attempts, 0, wait).0 == PostFrom(attempts, attempt, delay).0
      invariant PostFrom(attempts, 0, wait).1 == elapsed + PostFrom(attempts, attempt, delay).1
    {
      if attempt > 0 {
        elapsed := elapsed + Slept(delay, attempts[attempt].cancelled);
        if attempts[attempt].cancelled.Some? && attempts[attempt].cancelled.value < delay {
          return false, elapsed;
        }
        delay := Wrap(2 * delay);
      }
      elapsed := elapsed + attempts[attempt].duration;
      assert !attempts[attempt].response.Transient? ==> Decides(attempts, attempt);
      if attempts[attempt].response.Accepted? {
        return true, elapsed;
      }
      if attempts[attempt].response.Permanent? {
        return false, elapsed;
      }
      attempt := attempt + 1;
    }
    assert forall i: nat :: i < |attempts| ==> attempts[i].response.Transient?;
    return false, elapsed;
  }

  /** The wait before attempt `i`, doubled in 64 bits each time. */
  function DelayAt(wait: nat, i: nat): int { if i <= 1 then wait else Wrap(2 * DelayAt(wait, i - 1)) }

  /** It is the exact doubling while that fits. */
  lemma {:induction false} DelayExact(wait: nat, i: nat)
    requires i > 0 && wait * Pow2(i - 1) <= MAX
    ensures DelayAt(wait, i) == wait * Pow2(i - 1)
  {
    if i > 1 {
      DoubledWait(wait, i - 2);
      DelayExact(wait, i - 1);
    }
  }

  /** The context ends during the wait before attempt `i`. */
  predicate CutAt(attempts: seq<Attempt>, wait: nat, i: nat)
    requires i < |attempts|
  {
    i > 0 && attempts[i].cancelled.Some? && attempts[i].cancelled.value < DelayAt(wait, i)
  }

  /** The loop gets to the attempt: all before it failed transiently, and the context ended in none of the waits. */
  predicate Reaches(attempts: seq<Attempt>, wait: nat, i: nat)
    requires i <= |attempts|
  {
    forall j :: 0 <= j < i ==> attempts[j].response.Transient? && !CutAt(attempts, wait, j)
  }

  /** Attempts and uncut waits before attempt `i`. */
  function SpentBefore(attempts: seq<Attempt>, wait: nat, i: nat): nat
    requires i <= |attempts|
  {
    if i == 0 then 0
    else SpentBefore(attempts, wait, i - 1) + (if i == 1 then 0 else Slept(DelayAt(wait, i - 1), None)) + attempts[i - 1].duration
  }

  /** What is left from attempt `k` on, when the loop gets from it to attempt `i`. */
  lemma {:induction false} PostReaches(attempts: seq<Attempt>, wait: nat, k: nat, i: nat)
    requires k <= i <= |attempts| && Reaches(attempts, wait, i)
    ensures var there, here := PostFrom(attempts, i, DelayAt(wait, i)), PostFrom(attempts, k, DelayAt(wait, k));
      here.0 == there.0 && SpentBefore(attempts, wait, k) + here.1 == SpentBefore(attempts, wait, i) + there.1
    decreases i - k
  {
    if k < i {
      PostReaches(attempts, wait, k + 1, i);
    }
  }

  /**
   * The first attempt that settles the event decides; a context that ends in a wait before it stops
   * the retries with a failure, then and there; without either the event fails after the last attempt.
   */
  lemma PostEndsAt(attempts: seq<Attempt>, wait: nat, i: nat)
    requires i <= |attempts| && Reaches(attempts, wait, i)
    ensures var (ok, elapsed) := PostFrom(attempts, 0, wait);
      var spent := SpentBefore(attempts, wait, i);
      if i == |attempts| then !ok && elapsed == spent
      else if CutAt(attempts, wait, i) then !ok && elapsed == spent + attempts[i].cancelled.value
      else !attempts[i].response.Transient? ==>
        && ok == attempts[i].response.Accepted?
        && elapsed == spent + (if i == 0 then 0 else Slept(DelayAt(wait, i), None)) + attempts[i].duration
  {
    PostReaches(attempts, wait, 0, i);
  }

  /** The event is delivered if and only if some attempt that the loop gets to, its wait included, is accepted. */
  lemma PostSucceedsExactly(attempts: seq<Attempt>, wait: nat)
    ensures PostFrom(attempts, 0, wait).0 <==>
      exists i :: 0 <= i < |attempts| && Reaches(attempts, wait, i) && !CutAt(attempts, wait, i) && attempts[i].response.Accepted?
  {
    if i :| 0 <= i < |attempts| && Reaches(attempts, wait, i) && !CutAt(attempts, wait, i) && attempts[i].response.Accepted? {
      PostEndsAt(attempts, wait, i);
    }
    if PostFrom(attempts, 0, wait).0 {
      var i := Stops(attempts, wait, 0);
      PostEndsAt(attempts, wait, i);
    }
  }

  /** Where the loop stops. */
  lemma {:induction false} Stops(attempts: seq<Attempt>, wait: nat, k: nat) returns (i: nat)
    requires k <= |attempts| && Reaches(attempts, wait, k)
    ensures k <= i <= |attempts| && Reaches(attempts, wait, i)
    ensures i < |attempts| ==> CutAt(attempts, wait, i) || !attempts[i].response.Transient?
    decreases |attempts| - k
  {
    if k == |attempts| || CutAt(attempts, wait, k) || !attempts[k].response.Transient? {
      i := k;
    } else {
      i := Stops(attempts, wait, k + 1);
    }
  }

  /** Attempts and waits that are still to come. */
  function WorstFrom(timeout: nat, wait: nat, retries: nat, i: nat): int {
    (retries + 1 - i) * timeout + Waits(wait, retries) - Waits(wait, if i == 0 then 0 else i - 1)
  }

  lemma {:induction false} PostFromBound(timeout: nat, wait: nat, retries: nat, attempts: seq<Attempt>, i: nat, delay: int)
    requires |attempts| == retries + 1 && Timely(attempts, timeout) && i <= retries + 1
    requires -MAX - 1 <= delay && WaitBelow(delay, wait * Pow2(if i == 0 then 0 else i - 1))
    ensures PostFrom(attempts, i, delay).1 <= WorstFrom(timeout, wait, retries, i)
    decreases retries + 1 - i
  {
    if i <= retries {
      PostStep(timeout, wait, retries, i);
      StepLeft(timeout, retries, i);
      if i > 0 {
        WaitDoubles(delay, wait * Pow2(i - 1));
      }
      PostFromBound(timeout, wait, retries, attempts, i + 1, if i == 0 then delay else Wrap(2 * delay));
    }
    if i > 0 {
      WaitsMonotone(wait, i - 1, retries);
    }
  }

  lemma StepLeft(timeout: nat, retries: nat, i: nat)
    requires i <= retries
    ensures (retries + 1 - i) * timeout == (retries + 1 - (i + 1)) * timeout + timeout
    ensures (retries + 1 - (i + 1)) * timeout >= 0
  {}

  /** Over all responses, an event never takes longer than the worst case. */
  lemma PostBound(timeout: nat, wait: nat, retries: nat, attempts: seq<Attempt>)
    requires wait <= MAX && |attempts| == retries + 1 && Timely(attempts, timeout)
    ensures PostFrom(attempts, 0, wait).1 <= WorstEvent(timeout, wait, retries)
  {
    assert wait * Pow2(0) == wait && Waits(wait, 0) == 0;
    PostFromBound(timeout, wait, retries, attempts, 0, wait);
  }

  lemma PostStep(timeout: nat, wait: nat, retries: nat, attempt: nat)
    requires attempt <= retries
    ensures attempt * timeout + timeout == (attempt + 1) * timeout <= (retries + 1) * timeout
    ensures Waits(wait, attempt) <= Waits(wait, retries)
    ensures attempt > 0 ==> WaitsGrow(wait, attempt)
    ensures Pow2(0) == 1 && Waits(wait, 0) == 0
  {
    Products(attempt, retries, timeout);
    WaitsMonotone(wait, attempt, retries);
    if attempt > 0 {
      WaitsNext(wait, attempt - 1);
      DoubledWait(wait, attempt - 1);
    }
  }

  predicate WaitsGrow(wait: nat, attempt: nat)
    requires attempt > 0
  {
    && Waits(wait, attempt) == Waits(wait, attempt - 1) + wait * Pow2(attempt - 1)
    && wait * Pow2(attempt) == 2 * (wait * Pow2(attempt - 1))
  }

  lemma Products(attempt: nat, retries: nat, timeout: nat)
    requires attempt <= retries
    ensures attempt * timeout + timeout == (attempt + 1) * timeout <= (retries + 1) * timeout
  {}

  predicate Responses(timeout: nat, retries: nat, events: seq<seq<Attempt>>) {
    forall k :: 0 <= k < |events| ==> |events[k]| == retries + 1 && Timely(events[k], timeout)
  }

  /** A batch from event `k` on: whether all of it succeeds, and how long it takes. */
  function BatchFrom(wait: nat, events: seq<seq<Attempt>>, k: nat): (bool, nat)
    requires k <= |events|
    decreases |events| - k
  {
    if k == |events| then (true, 0)
    else
      var one := PostFrom(events[k], 0, wait);
      if !one.0 then one
      else
        var rest := BatchFrom(wait, events, k + 1);
        (rest.0, one.1 + rest.1)
  }

  /** A batch, event after event, up to the first failure. */
  method HandleBatch(timeout: nat, wait: nat, retries: nat, events: seq<seq<Attempt>>) returns (ok: bool, elapsed: nat)
    requires Responses(timeout, retries, events)
    ensures (ok, elapsed) == BatchFrom(wait, events, 0)
    ensures ok ==> forall k :: 0 <= k < |events| ==> Delivered(events[k])
  {
    elapsed := 0;
    for k := 0 to |events|
      invariant forall j :: 0 <= j < k ==> Delivered(events[j])
      invariant BatchFrom(wait, events, 0).0 == BatchFrom(wait, events, k).0
      invariant BatchFrom(wait, events, 0).1 == elapsed + BatchFrom(wait, events, k).1
    {
      var sent, spent := Post(wait, retries, events[k]);
      elapsed := elapsed + spent;
      if !sent {
        return false, elapsed;
      }
    }
    ok := true;
  }

  lemma {:induction false} BatchFromBound(timeout: nat, wait: nat, retries: nat, events: seq<seq<Attempt>>, k: nat)
    requires wait <= MAX && Responses(timeout, retries, events) && k <= |events|
    ensures BatchFrom(wait, events, k).1 <= WorstBatch(|events| - k, timeout, wait, retries)
    decreases |events| - k
  {
    if k < |events| {
      PostBound(timeout, wait, retries, events[k]);
      BatchFromBound(timeout, wait, retries, events, k + 1);
      BatchNext(|events| - k - 1, |events| - k, timeout, wait, retries);
    }
  }

  /** Over all responses, a batch of at most that many events never takes longer than the exact worst case. */
  lemma BatchBound(timeout: nat, wait: nat, retries: nat, events: seq<seq<Attempt>>, batch: nat)
    requires wait <= MAX && Responses(timeout, retries, events) && |events| <= batch
    ensures BatchFrom(wait, events, 0).1 <= WorstBatch(batch, timeout, wait, retries)
  {
    BatchFromBound(timeout, wait, retries, events, 0);
    if |events| < batch {
      BatchNext(|events|, batch, timeout, wait, retries);
    }
  }

  lemma BatchNext(k: nat, n: nat, timeout: nat, wait: nat, retries: nat)
    requires k < n
    ensures WorstBatch(k, timeout, wait, retries) + WorstEvent(timeout, wait, retries) == WorstBatch(k + 1, timeout, wait, retries)
    ensures WorstBatch(k + 1, timeout, wait, retries) <= WorstBatch(n, timeout, wait, retries)
  {}

  // ----- the worst case is reached -----

  /** Every attempt takes the whole timeout, and only the last one is answered. */
  function SlowestEvent(timeout: nat, retries: nat): (r: seq<Attempt>)
    ensures |r| == retries + 1
  {
    seq(retries + 1, i => Attempt(timeout, if i == retries then Accepted else Transient, None))
  }

  function SlowestRun(timeout: nat, retries: nat, batch: nat): seq<seq<Attempt>> { seq(batch, _ => SlowestEvent(timeout, retries)) }

  lemma SlowestStep(timeout: nat, retries: nat, i: nat, delay: nat)
    requires i <= retries
    ensures var attempts := SlowestEvent(timeout, retries);
      var slept := if i == 0 then 0 else delay;
      PostFrom(attempts, i, delay)
      == if i == retries then (true, slept + timeout)
         else
           var rest := PostFrom(attempts, i + 1, if i == 0 then delay else Wrap(2 * delay));
           (rest.0, slept + timeout + rest.1)
  {}

  /** The wait before attempt `i`. */
  function ExactWait(wait: nat, i: nat): nat { wait * Pow2(if i == 0 then 0 else i - 1) }

  lemma WorstStep(timeout: nat, wait: nat, retries: nat, i: nat)
    requires i <= retries
    ensures WorstFrom(timeout, wait, retries, i)
      == (if i == 0 then 0 else ExactWait(wait, i)) + timeout + if i == retries then 0 else WorstFrom(timeout, wait, retries, i + 1)
  {
    StepLeft(timeout, retries, i);
    if i > 0 {
      WaitsNext(wait, i - 1);
    }
  }

  lemma NextWait(wait: nat, retries: nat, i: nat)
    requires i < retries && Waits(wait, retries) <= MAX
    ensures ExactWait(wait, i + 1) <= MAX && ExactWait(wait, i + 1) == if i == 0 then ExactWait(wait, 0) else 2 * ExactWait(wait, i)
  {
    WaitsMonotone(wait, i + 1, retries);
    WaitsNext(wait, i);
    if i > 0 {
      DoubledWait(wait, i - 1);
    }
  }

  lemma {:induction false} SlowestFrom(timeout: nat, wait: nat, retries: nat, i: nat, delay: nat)
    requires i <= retries && Waits(wait, retries) <= MAX && delay == ExactWait(wait, i)
    ensures PostFrom(SlowestEvent(timeout, retries), i, delay) == (true, WorstFrom(timeout, wait, retries, i))
    decreases retries - i
  {
    SlowestStep(timeout, retries, i, delay);
    WorstStep(timeout, wait, retries, i);
    if i < retries {
      NextWait(wait, retries, i);
      SlowestFrom(timeout, wait, retries, i + 1, ExactWait(wait, i + 1));
    }
  }

  lemma SlowestEventReaches(timeout: nat, wait: nat, retries: nat)
    requires Waits(wait, retries) <= MAX
    ensures PostFrom(SlowestEvent(timeout, retries), 0, wait) == (true, WorstEvent(timeout, wait, retries))
  {
    assert ExactWait(wait, 0) == wait && Waits(wait, 0) == 0;
    SlowestFrom(timeout, wait, retries, 0, wait);
  }

  lemma {:induction false} SlowestRunFrom(timeout: nat, wait: nat, retries: nat, batch: nat, k: nat)
    requires k <= batch && Waits(wait, retries) <= MAX
    ensures BatchFrom(wait, SlowestRun(timeout, retries, batch), k) == (true, WorstBatch(batch - k, timeout, wait, retries))
    decreases batch - k
  {
    if k < batch {
      SlowestEventReaches(timeout, wait, retries);
      SlowestRunFrom(timeout, wait, retries, batch, k + 1);
      BatchNext(batch - k - 1, batch - k, timeout, wait, retries);
    }
  }

  /** The worst case is reached: some responses take exactly that long, and the batch is delivered. */
  lemma SlowestRunReaches(timeout: nat, wait: nat, retries: nat, batch: nat)
    requires batch > 0 && WorstBatch(batch, timeout, wait, retries) <= MAX
    ensures Responses(timeout, retries, SlowestRun(timeout, retries, batch))
    ensures BatchFrom(wait, SlowestRun(timeout, retries, batch), 0) == (true, WorstBatch(batch, timeout, wait, retries))
  {
    BatchNext(0, batch, timeout, wait, retries);
    assert Waits(wait, retries) <= WorstEvent(timeout, wait, retries);
    SlowestRunFrom(timeout, wait, retries, batch, 0);
  }

  // ----- backoff -----

  const SECOND: int := 1000000000
  const BASE_BACKOFF: int := 10 * SECOND
  const MAX_BACKOFF: int := 3600 * SECOND

  function Backoff(attempts: nat): int { Min(BASE_BACKOFF * Pow2(attempts), MAX_BACKOFF) }

  lemma {:induction false} Pow2Monotone(few: nat, many: nat)
    requires few <= many
    ensures Pow2(few) <= Pow2(many)
  {
    if few < many {
      Pow2Monotone(few, many - 1);
    }
  }

  /** The loop doubles the base delay and stops at the cap; a count of zero or less gives the base. */
  method NextBackoff(attempts: int) returns (delay: int)
    ensures delay == Backoff(if attempts < 0 then 0 else attempts)
  {
    delay := BASE_BACKOFF;
    var i := 0;
    while i < attempts && delay < MAX_BACKOFF
      invariant 0 <= i && (i <= attempts || i == 0)
      invariant delay == BASE_BACKOFF * Pow2(i)
    {
      delay := delay * 2;
      i := i + 1;
    }
    if attempts > 0 {
      Pow2Monotone(i, attempts);
    }
    if delay > MAX_BACKOFF {
      delay := MAX_BACKOFF;
    }
  }

  /** The delays before attempts `from` to `until`. */
  function Backoffs(from: nat, until: nat): nat
    decreases until - from
  {
    if from >= until then 0 else Backoff(from) + Backoffs(from + 1, until)
  }

  lemma {:induction false} BackoffsLast(from: nat, until: nat)
    requires from <= until
    ensures Backoffs(from, until + 1) == Backoffs(from, until) + Backoff(until)
    decreases until - from
  {
    if from < until {
      BackoffsLast(from + 1, until);
    }
  }

  lemma {:induction false} BackoffsGrow(from: nat, few: nat, many: nat)
    requires from <= few <= many
    ensures Backoffs(from, few) <= Backoffs(from, many)
    decreases many
  {
    if few < many {
      BackoffsGrow(from, few, many - 1);
      BackoffsLast(from, many - 1);
    }
  }

  /** The exact retry window, in 64 bits. */
  method RetryWindowFor(maxAttempts: int) returns (total: int)
    ensures total == Wrap(Backoffs(0, if maxAttempts < 0 then 0 else maxAttempts))
  {
    total := 0;
    var i := 0;
    while i < maxAttempts
      invariant 0 <= i && (i <= maxAttempts || i == 0)
      invariant total == Wrap(Backoffs(0, i))
    {
      var delay := NextBackoff(i);
      BackoffsLast(0, i);
      WrapSum(Backoffs(0, i), delay);
      total := Wrap(total + delay);
      i := i + 1;
    }
  }

  lemma WrapSum(x: int, y: int)
    ensures Wrap(Wrap(x) + y) == Wrap(x + y)
  {}

  lemma Shifted(x: int, q: int)
    ensures (x - q * WORD) % WORD == x % WORD
  {}
}
