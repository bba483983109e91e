/** The concurrency limiter: first-in first-out, at most `concurrency` tasks at a time. */
module Limiter {
  import opened Common
  import opened Queue

  /** `wakeups` counts the microtasks that enqueue calls have scheduled and that have not run yet. */
  datatype Limiter<T> = Limiter(waiting: seq<T>, active: nat, wakeups: nat)

  function EnqueueStep<T>(s: Limiter<T>, item: T): Limiter<T> {
    s.(waiting := s.waiting + [item], wakeups := s.wakeups + 1)
  }

  /** Starts the first waiting task. */
  function StartFirst<T>(s: Limiter<T>): (Limiter<T>, Option<T>) {
    if s.waiting == [] then (s, None)
    else (s.(waiting := s.waiting[1..], active := s.active + 1), Some(s.waiting[0]))
  }

  /** The microtask of an enqueue call. */
  function WakeStep<T>(s: Limiter<T>, concurrency: nat): (Limiter<T>, Option<T>)
    requires s.wakeups > 0
  {
    var s' := s.(wakeups := s.wakeups - 1);
    if s'.active < concurrency then StartFirst(s') else (s', None)
  }

  /** After a task: it frees its slot and hands it to the first waiting task without looking at the limit. */
  function NextStep<T>(s: Limiter<T>): (Limiter<T>, Option<T>)
    requires s.active > 0
  {
    StartFirst(s.(active := s.active - 1))
  }

  predicate Valid<T>(s: Limiter<T>, concurrency: nat) {
    && s.active <= concurrency
    && (|s.waiting| <= s.wakeups || s.active == concurrency)
  }

  /** Every step keeps the limit, and a waiting task is never forgotten. */
  lemma StepsKeepValid<T>(s: Limiter<T>, concurrency: nat, item: T)
    requires Valid(s, concurrency)
    ensures Valid(EnqueueStep(s, item), concurrency)
    ensures s.wakeups > 0 ==> Valid(WakeStep(s, concurrency).0, concurrency)
    ensures s.active > 0 ==> Valid(NextStep(s).0, concurrency)
  {
  }

  datatype Event<T> = Enqueue(item: T) | Wake | Finish

  predicate Enabled<T>(s: Limiter<T>, e: Event<T>) {
    match e
    case Enqueue(_) => true
    case Wake => s.wakeups > 0
    case Finish => s.active > 0
  }

  function EventStep<T>(s: Limiter<T>, concurrency: nat, e: Event<T>): (Limiter<T>, Option<T>)
    requires Enabled(s, e)
  {
    match e
    case Enqueue(item) => (EnqueueStep(s, item), None)
    case Wake => WakeStep(s, concurrency)
    case Finish => NextStep(s)
  }

  predicate CanRun<T>(s: Limiter<T>, concurrency: nat, events: seq<Event<T>>)
    decreases |events|
  {
    events != [] ==> Enabled(s, events[0]) && CanRun(EventStep(s, concurrency, events[0]).0, concurrency, events[1..])
  }

  function Run<T>(s: Limiter<T>, concurrency: nat, events: seq<Event<T>>): Limiter<T>
    requires CanRun(s, concurrency, events)
    decreases |events|
  {
    if events == [] then s else Run(EventStep(s, concurrency, events[0]).0, concurrency, events[1..])
  }

  /** The tasks started by a run, in the order in which they start. */
  function Started<T>(s: Limiter<T>, concurrency: nat, events: seq<Event<T>>): seq<T>
    requires CanRun(s, concurrency, events)
    decreases |events|
  {
    if events == [] then []
    else
      var (s', task) := EventStep(s, concurrency, events[0]);
      (if task.Some? then [task.value] else []) + Started(s', concurrency, events[1..])
  }

  function Enqueued<T>(events: seq<Event<T>>): seq<T> {
    if events == [] then []
    else (if events[0].Enqueue? then [events[0].item] else []) + Enqueued(events[1..])
  }

  /** Over every run: tasks start at most once, in the order in which they were enqueued, within the limit. */
  lemma {:induction false} RunIsFifo<T>(s: Limiter<T>, concurrency: nat, events: seq<Event<T>>)
    requires Valid(s, concurrency) && CanRun(s, concurrency, events)
    ensures Valid(Run(s, concurrency, events), concurrency)
    ensures Started(s, concurrency, events) + Run(s, concurrency, events).waiting == s.waiting + Enqueued(events)
    decreases |events|
  {
    if events != [] {
      var (s', task) := EventStep(s, concurrency, events[0]);
      var out := if task.Some? then [task.value] else [];
      var sent := if events[0].Enqueue? then [events[0].item] else [];
      RunIsFifo(s', concurrency, events[1..]);
      assert out + s'.waiting == s.waiting + sent;
      Regroup(out, Started(s', concurrency, events[1..]), Run(s, concurrency, events).waiting);
      Regroup(out, s'.waiting, Enqueued(events[1..]));
      Regroup(s.waiting, sent, Enqueued(events[1..]));
    }
  }

  /** Once no microtask is pending and no task is active, every task ever enqueued has started, in order. */
  lemma QuiescentHasStartedAll<T>(concurrency: nat, events: seq<Event<T>>)
    requires concurrency > 0 && CanRun(Limiter([], 0, 0), concurrency, events)
    requires Run(Limiter([], 0, 0), concurrency, events).wakeups == 0
    requires Run(Limiter([], 0, 0), concurrency, events).active == 0
    ensures Started(Limiter([], 0, 0), concurrency, events) == Enqueued(events)
  {
    RunIsFifo(Limiter([], 0, 0), concurrency, events);
    var started := Started(Limiter([], 0, 0), concurrency, events);
    assert started + [] == started && [] + Enqueued(events) == Enqueued(events);
  }

  // ---------------------------------------------------------------- the limiter object

  datatype LimitError = NotAPositiveInteger

  /** The limiter's closure variables.  Each method returns the task that it starts, if any. */
  class PLimit<T> {
    const concurrency: nat
    const queue: Queue<T>
    var activeCount: nat
    ghost var wakeups: nat

    ghost function Contents(): Limiter<T>
      reads this, queue
    {
      Limiter(queue.store, activeCount, wakeups)
    }

    constructor (concurrency: nat)
      ensures this.concurrency == concurrency && Contents() == Limiter([], 0, 0)
      ensures fresh(queue)
    {
      this.concurrency := concurrency;
      this.queue := new Queue();
      activeCount := 0;
      wakeups := 0;
    }

    method Enqueue(item: T)
      modifies this, queue
      ensures Contents() == EnqueueStep(old(Contents()), item)
    {
      queue.Enqueue(item);
      wakeups := wakeups + 1;
    }

    method Wake() returns (started: Option<T>)
      requires wakeups > 0
      modifies this, queue
      ensures (Contents(), started) == WakeStep(old(Contents()), concurrency)
    {
      wakeups := wakeups - 1;
      started := None;
      if activeCount < concurrency && queue.store != [] {
        started := queue.Dequeue();
        activeCount := activeCount + 1;
      }
    }

    method Next() returns (started: Option<T>)
      requires activeCount > 0
      modifies this, queue
      ensures (Contents(), started) == NextStep(old(Contents()))
    {
      activeCount := activeCount - 1;
      started := None;
      if queue.store != [] {
        started := queue.Dequeue();
        activeCount := activeCount + 1;
      }
    }
  }

  method CreateLimit<T>(concurrency: int) returns (r: Result<PLimit<T>, LimitError>)
    ensures r.Ok? <==> concurrency > 0
    ensures r.Ok? ==> fresh(r.value) && r.value.concurrency == concurrency && r.value.Contents() == Limiter([], 0, 0)
  {
    if concurrency <= 0 {
      return Err(NotAPositiveInteger);
    }
    var limit := new PLimit<T>(concurrency);
    r := Ok(limit);
  }
}
