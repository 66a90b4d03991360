/**
 * The asynchronous mailer (mailer/async.go): callers that send, workers that deliver with retries,
 * and a stop that drains the queue, in any interleaving. Callers and messages are numbered; what
 * happens under the mutex, or as one channel operation, is one step.
 */
module MailQueue {
  import opened Outcomes

  datatype Config = Config(capacity: nat, workers: nat, retries: nat)

  const DEFAULT_QUEUE_SIZE: nat := 256

  datatype Refusal = NilMailer | NegativeRetries

  /** NewAsync: a mailer and retries are demanded, a size or a worker count that is not positive gets its default. */
  method Configure(hasMailer: bool, queueSize: int, workers: int, retries: int) returns (result: Result<Config, Refusal>)
    ensures result.Ok? <==> hasMailer && retries >= 0
    ensures result.Err? ==> (result.error == NilMailer <==> !hasMailer)
    ensures result.Ok? ==>
      && Valid(result.value) && result.value.retries == retries
      && result.value.capacity == (if queueSize > 0 then queueSize else DEFAULT_QUEUE_SIZE)
      && result.value.workers == (if workers > 0 then workers else 1)
  {
    if !hasMailer {
      return Err(NilMailer);
    }
    if retries < 0 {
      return Err(NegativeRetries);
    }
    var size := queueSize;
    if size <= 0 {
      size := DEFAULT_QUEUE_SIZE;
    }
    var count := workers;
    if count <= 0 {
      count := 1;
    }
    return Ok(Config(size, count, retries));
  }

  predicate Valid(config: Config) { config.capacity >= 1 && config.workers >= 1 }

  datatype Worker = Idle | Busy(message: nat, attempts: nat) | Exited

  /** How a delivery ended; `cut` when the caller's context ended between attempts. */
  datatype Ending = Ending(attempts: nat, delivered: bool, cut: bool)

  /**
   * The channel and its mutex-guarded flag, the workers, callers delivering for themselves with their
   * attempts so far, what has ended, and whether a channel operation has panicked.
   */
  datatype State = State(queue: seq<nat>, channelClosed: bool, closed: bool, workers: seq<Worker>,
                         callers: map<nat, nat>, ended: map<nat, Ending>, panicked: bool)

  datatype Event =
    | Send(message: nat)
    | Take(worker: nat)
    | WorkerAttempt(worker: nat, success: bool)
    | CallerAttempt(message: nat, success: bool)
    | CallerCut(message: nat)
    | Exit(worker: nat)
    | Stop

  predicate Known(s: State, message: nat) {
    message in s.queue || message in s.callers || message in s.ended || InHand(s, message)
  }

  predicate InHand(s: State, message: nat) {
    exists w :: 0 <= w < |s.workers| && s.workers[w].Busy? && s.workers[w].message == message
  }

  predicate Fits(s: State, e: Event) {
    match e
    case Send(message) => !Known(s, message)
    case Take(w) => w < |s.workers| && s.workers[w].Idle? && s.queue != []
    case WorkerAttempt(w, _) => w < |s.workers| && s.workers[w].Busy?
    case CallerAttempt(message, _) => message in s.callers
    case CallerCut(message) => message in s.callers && s.callers[message] > 0
    case Exit(w) => w < |s.workers| && s.workers[w].Idle? && s.queue == [] && s.channelClosed
    case Stop => true
  }

  /** Under the mutex: a stopped mailer or a full queue makes the caller deliver for itself. */
  function Sent(c: Config, s: State, message: nat): State {
    if s.closed then s.(callers := s.callers[message := 0])
    else if |s.queue| < c.capacity then
      if s.channelClosed then s.(panicked := true) else s.(queue := s.queue + [message])
    else s.(callers := s.callers[message := 0])
  }

  function Taken(s: State, w: nat): State
    requires Fits(s, Take(w))
  {
    s.(queue := s.queue[1..], workers := s.workers[w := Busy(s.queue[0], 0)])
  }

  /** One more attempt of a delivery that has made so many: the ending it reaches, if it does. */
  function Attempted(c: Config, attempts: nat, success: bool): Option<Ending> {
    if success || attempts >= c.retries then Some(Ending(attempts + 1, success, false)) else None
  }

  function WorkerAttempted(c: Config, s: State, w: nat, success: bool): State
    requires Fits(s, WorkerAttempt(w, success))
  {
    var message, attempts := s.workers[w].message, s.workers[w].attempts;
    match Attempted(c, attempts, success)
    case Some(ending) => s.(workers := s.workers[w := Idle], ended := s.ended[message := ending])
    case None => s.(workers := s.workers[w := Busy(message, attempts + 1)])
  }

  function CallerAttempted(c: Config, s: State, message: nat, success: bool): State
    requires Fits(s, CallerAttempt(message, success))
  {
    match Attempted(c, s.callers[message], success)
    case Some(ending) => s.(callers := s.callers - {message}, ended := s.ended[message := ending])
    case None => s.(callers := s.callers[message := s.callers[message] + 1])
  }

  function Stopped(s: State): State {
    if s.closed then s
    else if s.channelClosed then s.(panicked := true)
    else s.(closed := true, channelClosed := true)
  }

  function Step(c: Config, s: State, e: Event): State
    requires Fits(s, e)
  {
    match e
    case Send(message) => Sent(c, s, message)
    case Take(w) => Taken(s, w)
    case WorkerAttempt(w, success) => WorkerAttempted(c, s, w, success)
    case CallerAttempt(message, success) => CallerAttempted(c, s, message, success)
    case CallerCut(message) =>
      s.(callers := s.callers - {message}, ended := s.ended[message := Ending(s.callers[message], false, true)])
    case Exit(w) => s.(workers := s.workers[w := Exited])
    case Stop => Stopped(s)
  }

  function Start(c: Config): State { State([], false, false, seq(c.workers, i => Idle), map[], map[], false) }

  predicate Possible(c: Config, s: State, events: seq<Event>)
    decreases events
  {
    events != [] ==> Fits(s, events[0]) && Possible(c, Step(c, s, events[0]), events[1..])
  }

  function Final(c: Config, s: State, events: seq<Event>): State
    requires Possible(c, s, events)
    decreases events
  {
    if events == [] then s else Final(c, Step(c, s, events[0]), events[1..])
  }

  /** Stop returns nil: every worker has left its loop. */
  predicate Drained(s: State) { s.closed && forall w :: 0 <= w < |s.workers| ==> s.workers[w].Exited? }

  // ----- the mailer as an object -----

  /** The first `n` attempts failed. */
  predicate AllFailed(results: seq<bool>, n: nat)
    requires n <= |results|
  {
    forall i :: 0 <= i < n ==> !results[i]
  }

  class Async {
    const config: Config
    var queue: seq<nat>
    var channelClosed: bool
    var closed: bool
    var workers: seq<Worker>
    var callers: map<nat, nat>
    var ended: map<nat, Ending>
    var panicked: bool

    function View(): State
      reads this
    {
      State(queue, channelClosed, closed, workers, callers, ended, panicked)
    }

    constructor (config: Config)
      ensures this.config == config && View() == Start(config)
    {
      this.config := config;
      queue, channelClosed, closed, panicked := [], false, false, false;
      workers := seq(config.workers, i => Idle);
      callers, ended := map[], map[];
    }

    /** Queues the message, or leaves it to the caller. */
    method Send(message: nat) returns (queued: bool)
      requires Fits(View(), Event.Send(message))
      modifies this
      ensures View() == old(Sent(config, View(), message))
      ensures queued ==> queue == old(queue) + [message]
    {
      if closed {
        callers := callers[message := 0];
        return false;
      }
      if |queue| < config.capacity {
        if channelClosed {
          panicked := true;
          return false;
        }
        queue := queue + [message];
        return true;
      }
      callers := callers[message := 0];
      return false;
    }

    /** One turn of a worker's loop that finds a message. */
    method Receive(w: nat)
      requires Fits(View(), Take(w))
      modifies this
      ensures View() == old(Taken(View(), w))
    {
      workers := workers[w := Busy(queue[0], 0)];
      queue := queue[1..];
    }

    /** One attempt of the worker's delivery. */
    method Attempt(w: nat, success: bool)
      requires Fits(View(), WorkerAttempt(w, success))
      modifies this
      ensures View() == old(WorkerAttempted(config, View(), w, success))
    {
      var message, attempts := workers[w].message, workers[w].attempts;
      if success || attempts >= config.retries {
        ended := ended[message := Ending(attempts + 1, success, false)];
        workers := workers[w := Idle];
      } else {
        workers := workers[w := Busy(message, attempts + 1)];
      }
    }

    /** Closes the queue once. */
    method BeginStop()
      modifies this
      ensures View() == old(Stopped(View()))
    {
      if !closed {
        if channelClosed {
          panicked := true;
          return;
        }
        closed := true;
        channelClosed := true;
      }
    }

    /** A whole delivery: `results` are what the attempts would return, `cut` the attempt before which the context ends. */
    static method Deliver(retries: nat, results: seq<bool>, cut: Option<nat>) returns (ending: Ending)
      requires |results| == retries + 1
      ensures 1 <= ending.attempts <= retries + 1
      ensures forall i :: 0 <= i < ending.attempts - 1 ==> !results[i]
      ensures ending.delivered == results[ending.attempts - 1]
      ensures !ending.delivered ==> ending.attempts == retries + 1 || (ending.cut && cut == Some(ending.attempts))
      ensures ending.cut <==> cut.Some? && 0 < cut.value <= retries && AllFailed(results, cut.value)
      ensures ending.cut ==> !ending.delivered && ending.attempts == cut.value
      ensures ending.delivered <==>
        exists i :: 0 <= i <= retries && results[i] && AllFailed(results, i) && !(cut.Some? && 0 < cut.value <= i)
    {
      var attempt := 0;
      while attempt <= retries
        invariant 0 <= attempt <= retries + 1
        invariant AllFailed(results, attempt)
        invariant !(cut.Some? && 0 < cut.value < attempt)
      {
        if attempt > 0 && cut == Some(attempt) {
          return Ending(attempt, false, true);
        }
        if results[attempt] {
          return Ending(attempt + 1, true, false);
        }
        attempt := attempt + 1;
      }
      return Ending(attempt, false, false);
    }
  }

  // ----- what every interleaving keeps -----

  /** Everything but the partition of messages. */
  predicate Sane(c: Config, s: State) {
    && |s.queue| <= c.capacity && |s.workers| == c.workers
    && s.closed == s.channelClosed && !s.panicked
    && (forall w :: 0 <= w < |s.workers| && s.workers[w].Exited? ==> s.closed && s.queue == [])
  }

  /** Attempts so far, and the attempts of what has ended: one more than the retries at most, fewer only on success or when cut. */
  predicate Counted(c: Config, s: State) {
    && (forall w :: 0 <= w < |s.workers| && s.workers[w].Busy? ==> s.workers[w].attempts <= c.retries)
    && (forall m :: m in s.callers ==> s.callers[m] <= c.retries)
    && (forall m :: m in s.ended ==> 1 <= s.ended[m].attempts <= c.retries + 1)
    && (forall m :: m in s.ended && !s.ended[m].delivered && !s.ended[m].cut ==> s.ended[m].attempts == c.retries + 1)
  }

  /** No message is in two places. */
  predicate Apart(s: State) {
    && (forall i, j :: 0 <= i < j < |s.queue| ==> s.queue[i] != s.queue[j])
    && (forall v, w :: 0 <= v < w < |s.workers| && s.workers[v].Busy? && s.workers[w].Busy? ==> s.workers[v].message != s.workers[w].message)
    && (forall i, w :: 0 <= i < |s.queue| && 0 <= w < |s.workers| && s.workers[w].Busy? ==> s.queue[i] != s.workers[w].message)
    && (forall i :: 0 <= i < |s.queue| ==> s.queue[i] !in s.callers && s.queue[i] !in s.ended)
    && (forall w :: 0 <= w < |s.workers| && s.workers[w].Busy? ==> s.workers[w].message !in s.callers && s.workers[w].message !in s.ended)
    && s.callers.Keys !! s.ended.Keys
  }

  predicate Invariant(c: Config, s: State) { Sane(c, s) && Counted(c, s) && Apart(s) }

  lemma SendKeepsApart(c: Config, s: State, message: nat)
    requires Apart(s) && !Known(s, message)
    ensures Apart(Sent(c, s, message))
  {
    assert forall w :: 0 <= w < |s.workers| && s.workers[w].Busy? ==> s.workers[w].message != message;
  }

  lemma TakeKeepsApart(s: State, w: nat)
    requires Apart(s) && Fits(s, Take(w))
    ensures Apart(Taken(s, w))
  {
    var later := Taken(s, w);
    assert forall i :: 0 <= i < |later.queue| ==> later.queue[i] == s.queue[i + 1];
  }

  lemma WorkerEndsApart(s: State, w: nat, ending: Ending)
    requires Apart(s) && w < |s.workers| && s.workers[w].Busy?
    ensures Apart(s.(workers := s.workers[w := Idle], ended := s.ended[s.workers[w].message := ending]))
  {}

  lemma WorkerGoesOnApart(s: State, w: nat, attempts: nat)
    requires Apart(s) && w < |s.workers| && s.workers[w].Busy?
    ensures Apart(s.(workers := s.workers[w := Busy(s.workers[w].message, attempts)]))
  {}

  lemma WorkerKeepsApart(c: Config, s: State, w: nat, success: bool)
    requires Apart(s) && Fits(s, WorkerAttempt(w, success))
    ensures Apart(WorkerAttempted(c, s, w, success))
  {
    match Attempted(c, s.workers[w].attempts, success)
    case Some(ending) => WorkerEndsApart(s, w, ending);
    case None => WorkerGoesOnApart(s, w, s.workers[w].attempts + 1);
  }

  lemma CallerKeepsApart(c: Config, s: State, e: Event)
    requires Apart(s) && Fits(s, e) && (e.CallerAttempt? || e.CallerCut?)
    ensures Apart(Step(c, s, e))
  {}

  lemma StepKeepsApart(c: Config, s: State, e: Event)
    requires Apart(s) && Fits(s, e)
    ensures Apart(Step(c, s, e))
  {
    match e
    case Send(message) => SendKeepsApart(c, s, message);
    case Take(w) => TakeKeepsApart(s, w);
    case WorkerAttempt(w, success) => WorkerKeepsApart(c, s, w, success);
    case CallerAttempt(_, _) => CallerKeepsApart(c, s, e);
    case CallerCut(_) => CallerKeepsApart(c, s, e);
    case Exit(_) =>
    case Stop =>
  }

  lemma StepKeepsSane(c: Config, s: State, e: Event)
    requires Valid(c) && Sane(c, s) && Fits(s, e)
    ensures Sane(c, Step(c, s, e))
  {}

  lemma WorkerKeepsCounted(c: Config, s: State, w: nat, success: bool)
    requires Counted(c, s) && Fits(s, WorkerAttempt(w, success))
    ensures Counted(c, WorkerAttempted(c, s, w, success))
  {}

  lemma CallerKeepsCounted(c: Config, s: State, message: nat, success: bool)
    requires Counted(c, s) && Fits(s, CallerAttempt(message, success))
    ensures Counted(c, CallerAttempted(c, s, message, success))
  {}

  lemma StepKeepsCounted(c: Config, s: State, e: Event)
    requires Counted(c, s) && Fits(s, e)
    ensures Counted(c, Step(c, s, e))
  {
    if e.WorkerAttempt? {
      WorkerKeepsCounted(c, s, e.worker, e.success);
    } else if e.CallerAttempt? {
      CallerKeepsCounted(c, s, e.message, e.success);
    }
  }

  lemma {:induction false} RunKeepsInvariant(c: Config, s: State, events: seq<Event>)
    requires Valid(c) && Invariant(c, s) && Possible(c, s, events)
    ensures Invariant(c, Final(c, s, events))
    decreases events
  {
    if events != [] {
      StepKeepsSane(c, s, events[0]);
      StepKeepsCounted(c, s, events[0]);
      StepKeepsApart(c, s, events[0]);
      RunKeepsInvariant(c, Step(c, s, events[0]), events[1..]);
    }
  }

  // ----- no message is lost -----

  lemma HandChanged(s: State, later: State, w: nat, message: nat)
    requires w < |s.workers| == |later.workers| && later.workers == s.workers[w := later.workers[w]]
    ensures InHand(later, message) <==>
      || (later.workers[w].Busy? && later.workers[w].message == message)
      || exists v :: 0 <= v < |s.workers| && v != w && s.workers[v].Busy? && s.workers[v].message == message
  {
    if v :| 0 <= v < |s.workers| && v != w && s.workers[v].Busy? && s.workers[v].message == message {
      assert later.workers[v] == s.workers[v];
    }
  }

  lemma HandSplit(s: State, w: nat, message: nat)
    requires w < |s.workers|
    ensures InHand(s, message) <==>
      || (s.workers[w].Busy? && s.workers[w].message == message)
      || exists v :: 0 <= v < |s.workers| && v != w && s.workers[v].Busy? && s.workers[v].message == message
  {}

  lemma TakeKnows(s: State, w: nat, message: nat)
    requires Fits(s, Take(w))
    ensures Known(Taken(s, w), message) <==> Known(s, message)
  {
    HandChanged(s, Taken(s, w), w, message);
    HandSplit(s, w, message);
    assert s.queue == [s.queue[0]] + s.queue[1..];
  }

  lemma WorkerKnows(c: Config, s: State, w: nat, success: bool, message: nat)
    requires Fits(s, WorkerAttempt(w, success))
    ensures Known(WorkerAttempted(c, s, w, success), message) <==> Known(s, message)
  {
    HandChanged(s, WorkerAttempted(c, s, w, success), w, message);
    HandSplit(s, w, message);
  }

  /** A step forgets no message and knows no other than the one sent. */
  lemma StepKnows(c: Config, s: State, e: Event, message: nat)
    requires Sane(c, s) && Fits(s, e)
    ensures Known(Step(c, s, e), message) <==> Known(s, message) || e == Send(message)
  {
    match e
    case Take(w) => TakeKnows(s, w, message);
    case WorkerAttempt(w, success) => WorkerKnows(c, s, w, success, message);
    case Exit(w) =>
      HandChanged(s, Step(c, s, e), w, message);
      HandSplit(s, w, message);
    case _ => assert Step(c, s, e).workers == s.workers;
  }

  lemma {:induction false} RunKnows(c: Config, s: State, events: seq<Event>, message: nat)
    requires Valid(c) && Sane(c, s) && Possible(c, s, events)
    ensures Known(Final(c, s, events), message) <==> Known(s, message) || Send(message) in events
    decreases events
  {
    if events != [] {
      StepKeepsSane(c, s, events[0]);
      StepKnows(c, s, events[0], message);
      RunKnows(c, Step(c, s, events[0]), events[1..], message);
      assert events == [events[0]] + events[1..];
    }
  }

  lemma StartInvariant(c: Config)
    requires Valid(c)
    ensures Invariant(c, Start(c)) && forall message :: !Known(Start(c), message)
  {}

  /**
   * In every interleaving no channel operation panics, the queue stays within its bound, every
   * message sent is in exactly one place, with at most one attempt more than the retries.
   */
  lemma EveryInterleaving(c: Config, events: seq<Event>, message: nat)
    requires Valid(c) && Possible(c, Start(c), events)
    ensures var s := Final(c, Start(c), events);
      && !s.panicked && |s.queue| <= c.capacity && Counted(c, s) && Apart(s)
      && (Known(s, message) <==> Send(message) in events)
  {
    StartInvariant(c);
    RunKeepsInvariant(c, Start(c), events);
    RunKnows(c, Start(c), events, message);
  }

  /** When Stop returns nil the queue is empty, every worker is gone, and whatever is not with its own caller has ended. */
  lemma StopReturnsDrained(c: Config, events: seq<Event>, message: nat)
    requires Valid(c) && Possible(c, Start(c), events) && Drained(Final(c, Start(c), events)) && Send(message) in events
    ensures var s := Final(c, Start(c), events);
      s.queue == [] && (message in s.ended || message in s.callers)
  {
    EveryInterleaving(c, events, message);
    StartInvariant(c);
    RunKeepsInvariant(c, Start(c), events);
    var s := Final(c, Start(c), events);
    assert s.workers[0].Exited?;
  }

  // ----- draining makes progress -----

  function Work(c: Config, w: Worker): nat {
    match w
    case Idle => 1
    case Busy(_, attempts) => if attempts <= c.retries then c.retries + 2 - attempts else 1
    case Exited => 0
  }

  function TotalWork(c: Config, workers: seq<Worker>): nat {
    if workers == [] then 0 else Work(c, workers[0]) + TotalWork(c, workers[1..])
  }

  /** Steps that are still ahead of the workers, at most. */
  function Remaining(c: Config, s: State): nat { (c.retries + 3) * |s.queue| + TotalWork(c, s.workers) }

  lemma {:induction false} WorkChanged(c: Config, workers: seq<Worker>, w: nat, x: Worker)
    requires w < |workers|
    ensures TotalWork(c, workers[w := x]) + Work(c, workers[w]) == TotalWork(c, workers) + Work(c, x)
  {
    if w > 0 {
      WorkChanged(c, workers[1..], w - 1, x);
      assert workers[w := x][1..] == workers[1..][w - 1 := x];
    }
  }

  lemma QueueWork(c: Config, n: nat)
    requires n > 0
    ensures (c.retries + 3) * n == (c.retries + 3) * (n - 1) + c.retries + 3
  {}

  predicate OfWorkers(e: Event) { e.Take? || e.WorkerAttempt? || e.Exit? }

  /** Every step of a worker leaves less to do. */
  lemma WorkersProgress(c: Config, s: State, e: Event)
    requires Counted(c, s) && Fits(s, e) && OfWorkers(e)
    ensures Remaining(c, Step(c, s, e)) < Remaining(c, s)
  {
    WorkChanged(c, s.workers, e.worker, Step(c, s, e).workers[e.worker]);
    if e.Take? {
      QueueWork(c, |s.queue|);
    }
  }

  /** After Stop some worker can always take a step, until all have left: the drain cannot get stuck. */
  lemma DrainNeverStuck(c: Config, events: seq<Event>)
    requires Valid(c) && Possible(c, Start(c), events)
    requires var s := Final(c, Start(c), events); s.closed && !Drained(s)
    ensures exists e :: OfWorkers(e) && Fits(Final(c, Start(c), events), e)
  {
    StartInvariant(c);
    RunKeepsInvariant(c, Start(c), events);
    var s := Final(c, Start(c), events);
    var w :| 0 <= w < |s.workers| && !s.workers[w].Exited?;
    if s.workers[w].Busy? {
      assert Fits(s, WorkerAttempt(w, true));
    } else if s.queue != [] {
      assert Fits(s, Take(w));
    } else {
      assert Fits(s, Exit(w));
    }
  }
}
