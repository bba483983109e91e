/**
 * The timer-driven aggregator: requests are queued by `send` and leave in batches on ticks.
 *
 * How long a queued request can wait is counted in ticks.
 */
module BatchAggregator {
  import opened Common
  import opened Queue
  import opened Utils

  /** `armed` tells whether a tick is scheduled. */
  datatype Aggregator<T> = Aggregator(queue: seq<T>, tickCounter: nat, armed: bool)

  function SendStep<T>(s: Aggregator<T>, intent: T): Aggregator<T> {
    s.(queue := s.queue + [intent], armed := true)
  }

  /** One tick, and the batch it takes out of the queue, if any. */
  function TickStep<T>(s: Aggregator<T>, maxBatchSize: int): (r: (Aggregator<T>, Option<seq<T>>))
    ensures s.queue == (if r.1.Some? then r.1.value else []) + r.0.queue
  {
    var tickCounter := s.tickCounter + 1;
    if |s.queue| > maxBatchSize || tickCounter > 2 then
      var batch := Taken(s.queue, maxBatchSize);
      var rest := s.queue[|batch|..];
      (Aggregator(rest, 0, rest != []), Some(batch))
    else
      (Aggregator(s.queue, tickCounter, s.queue != []), None)
  }

  /** The timer runs exactly while something is queued, and at most two ticks pass without a batch. */
  predicate Valid<T>(s: Aggregator<T>) {
    && (s.armed <==> s.queue != [])
    && s.tickCounter <= 2
  }

  datatype Event<T> = Send(intent: T) | Tick

  function EventStep<T>(s: Aggregator<T>, maxBatchSize: int, e: Event<T>): (Aggregator<T>, Option<seq<T>>) {
    match e
    case Send(intent) => (SendStep(s, intent), None)
    case Tick => TickStep(s, maxBatchSize)
  }

  /** A run: ticks come only while the timer is armed. */
  predicate CanRun<T>(s: Aggregator<T>, maxBatchSize: int, events: seq<Event<T>>)
    decreases |events|
  {
    events != [] ==>
      && (events[0].Tick? ==> s.armed)
      && CanRun(EventStep(s, maxBatchSize, events[0]).0, maxBatchSize, events[1..])
  }

  function Run<T>(s: Aggregator<T>, maxBatchSize: int, events: seq<Event<T>>): Aggregator<T>
    decreases |events|
  {
    if events == [] then s else Run(EventStep(s, maxBatchSize, events[0]).0, maxBatchSize, events[1..])
  }

  /** The batches of a run, in order. */
  function Batches<T>(s: Aggregator<T>, maxBatchSize: int, events: seq<Event<T>>): seq<seq<T>>
    decreases |events|
  {
    if events == [] then []
    else
      var (s', batch) := EventStep(s, maxBatchSize, events[0]);
      (if batch.Some? then [batch.value] else []) + Batches(s', maxBatchSize, events[1..])
  }

  /** The requests that left the queue during a run, in the order in which they left. */
  function Dispatched<T>(s: Aggregator<T>, maxBatchSize: int, events: seq<Event<T>>): seq<T>
    decreases |events|
  {
    if events == [] then []
    else
      var (s', batch) := EventStep(s, maxBatchSize, events[0]);
      (if batch.Some? then batch.value else []) + Dispatched(s', maxBatchSize, events[1..])
  }

  function Sends<T>(events: seq<Event<T>>): seq<T> {
    if events == [] then []
    else (match events[0] case Send(intent) => [intent] case Tick => []) + Sends(events[1..])
  }

  function Ticks<T>(events: seq<Event<T>>): nat {
    if events == [] then 0 else (if events[0].Tick? then 1 else 0) + Ticks(events[1..])
  }

  /** Over every run nothing is lost, duplicated or reordered. */
  lemma {:induction false} RunKeepsOrder<T>(s: Aggregator<T>, maxBatchSize: int, events: seq<Event<T>>)
    ensures Dispatched(s, maxBatchSize, events) + Run(s, maxBatchSize, events).queue == s.queue + Sends(events)
    decreases |events|
  {
    if events != [] {
      var (s', batch) := EventStep(s, maxBatchSize, events[0]);
      var out := if batch.Some? then batch.value else [];
      var sent := match events[0] case Send(intent) => [intent] case Tick => [];
      var rest, later := Dispatched(s', maxBatchSize, events[1..]), Sends(events[1..]);
      RunKeepsOrder(s', maxBatchSize, events[1..]);
      assert out + s'.queue == s.queue + sent;
      Regroup(out, rest, Run(s, maxBatchSize, events).queue);
      Regroup(out, s'.queue, later);
      Regroup(s.queue, sent, later);
    }
  }

  /** Over every run the aggregator stays valid, and every batch is non-empty and within the limit. */
  lemma {:induction false} RunKeepsValid<T>(s: Aggregator<T>, maxBatchSize: int, events: seq<Event<T>>)
    requires Valid(s) && CanRun(s, maxBatchSize, events)
    ensures Valid(Run(s, maxBatchSize, events))
    ensures forall batch :: batch in Batches(s, maxBatchSize, events) ==> 0 < |batch| <= BatchLimit(maxBatchSize)
    ensures Flatten(Batches(s, maxBatchSize, events)) == Dispatched(s, maxBatchSize, events)
    decreases |events|
  {
    if events != [] {
      var (s', batch) := EventStep(s, maxBatchSize, events[0]);
      var later := Batches(s', maxBatchSize, events[1..]);
      RunKeepsValid(s', maxBatchSize, events[1..]);
      if batch.Some? {
        assert ([batch.value] + later)[1..] == later;
      } else {
        assert [] + later == later;
      }
    }
  }

  /**
   * Requests are gathered: as long as no more are queued than fit in one batch, nothing leaves before the
   * third tick since the last batch.
   */
  lemma {:induction false} NothingLeavesEarly<T>(s: Aggregator<T>, maxBatchSize: int, events: seq<Event<T>>)
    requires |s.queue| + |Sends(events)| <= maxBatchSize
    requires s.tickCounter + Ticks(events) <= 2
    ensures Batches(s, maxBatchSize, events) == []
    ensures Run(s, maxBatchSize, events).queue == s.queue + Sends(events)
    ensures Run(s, maxBatchSize, events).tickCounter == s.tickCounter + Ticks(events)
    decreases |events|
  {
    if events == [] {
      assert s.queue + Sends(events) == s.queue;
    } else {
      var s' := EventStep(s, maxBatchSize, events[0]).0;
      NothingLeavesEarly(s', maxBatchSize, events[1..]);
      assert s'.queue + Sends(events[1..]) == s.queue + Sends(events);
    }
  }

  /** A tick sends exactly when more is queued than fits in a batch or it is the third; then as much as fits. */
  lemma {:induction false} TickMeans<T>(s: Aggregator<T>, maxBatchSize: int)
    requires s.tickCounter <= 2
    ensures
      var (s', batch) := TickStep(s, maxBatchSize);
      && (batch.Some? <==> |s.queue| > maxBatchSize || s.tickCounter == 2)
      && (batch.Some? ==>
            && |batch.value| == (if |s.queue| < BatchLimit(maxBatchSize) then |s.queue| else BatchLimit(maxBatchSize))
            && batch.value + s'.queue == s.queue && s'.tickCounter == 0)
      && (batch.None? ==> s'.queue == s.queue && s'.tickCounter == s.tickCounter + 1)
      && (s'.armed <==> s'.queue != [])
  {
  }

  /**
   * Ticks between two batches while more than a batch is queued.  From 2^31 on the batches wrap to a
   * smaller size than the one that makes a tick send at once, so that only every third tick sends.
   */
  function Pace(maxBatchSize: int): nat {
    if maxBatchSize < 0x8000_0000 then 1 else 3
  }

  /** How many full batches leave before position p. */
  function FullBatches(p: nat, limit: nat): nat
    requires limit >= 1
  {
    if p < limit then 0 else 1 + FullBatches(p - limit, limit)
  }

  lemma {:induction false} FullBatchesIs(p: nat, limit: nat)
    requires limit >= 1
    ensures FullBatches(p, limit) == p / limit
    decreases p
  {
    if p < limit {
      QuotientIs(p, limit, 0, p);
    } else {
      FullBatchesIs(p - limit, limit);
      var q := (p - limit) / limit;
      assert p - limit == q * limit + (p - limit) % limit;
      QuotientIs(p, limit, q + 1, (p - limit) % limit);
    }
  }

  lemma QuotientIs(n: nat, d: nat, q: int, r: nat)
    requires d >= 1 && n == q * d + r && r < d
    ensures n / d == q
  {
    var q' := n / d;
    assert n == q' * d + n % d;
    if q' > q {
      MulAtLeast(q' - q, d);
    } else if q' < q {
      MulAtLeast(q - q', d);
    }
  }

  lemma MulAtLeast(a: int, d: nat)
    requires a >= 1
    ensures a * d >= d
  {
    assert a * d == d + (a - 1) * d;
  }

  /** Ticks until the request at queue position p leaves, when no tick has passed since the last batch. */
  function Wait(p: nat, maxBatchSize: int): nat {
    var fullBatches := FullBatches(p, BatchLimit(maxBatchSize));
    if Pace(maxBatchSize) == 1 then fullBatches + 3 else 3 * fullBatches + 3
  }

  /** The same with t ticks already passed: at pace 1 they help the head of the queue only. */
  function Needed(p: nat, maxBatchSize: int, t: nat): int {
    if p < BatchLimit(maxBatchSize) then 3 - t
    else if Pace(maxBatchSize) == 1 then Wait(p, maxBatchSize)
    else Wait(p, maxBatchSize) - t
  }

  lemma WaitIs(p: nat, maxBatchSize: int)
    ensures Wait(p, maxBatchSize) == Pace(maxBatchSize) * (p / BatchLimit(maxBatchSize)) + 3
  {
    FullBatchesIs(p, BatchLimit(maxBatchSize));
  }

  /** A tick brings the request at position p closer by at least one. */
  lemma {:induction false} TickHelps<T>(s: Aggregator<T>, maxBatchSize: int, p: nat)
    requires s.tickCounter <= 2 && p < |s.queue|
    ensures
      var (s', batch) := TickStep(s, maxBatchSize);
      var taken := if batch.Some? then |batch.value| else 0;
      taken > p || (taken <= p < taken + |s'.queue| && s'.tickCounter <= 2
                    && Needed(p - taken, maxBatchSize, s'.tickCounter) <= Needed(p, maxBatchSize, s.tickCounter) - 1)
  {
    var limit := BatchLimit(maxBatchSize);
    if p >= limit {
      assert Pace(maxBatchSize) == 1 ==> |s.queue| > maxBatchSize;
    }
  }

  /**
   * However many requests are sent meanwhile: after that many ticks the request at queue position p has
   * left.
   */
  lemma {:induction false} LeavesWithin<T>(s: Aggregator<T>, maxBatchSize: int, events: seq<Event<T>>, p: nat)
    requires s.tickCounter <= 2 && p < |s.queue|
    requires Ticks(events) >= Needed(p, maxBatchSize, s.tickCounter)
    ensures |Dispatched(s, maxBatchSize, events)| > p
    decreases |events|
  {
    if events != [] {
      var (s', batch) := EventStep(s, maxBatchSize, events[0]);
      if events[0].Tick? {
        TickHelps(s, maxBatchSize, p);
        var taken := if batch.Some? then |batch.value| else 0;
        if taken <= p {
          LeavesWithin(s', maxBatchSize, events[1..], p - taken);
        }
      } else {
        LeavesWithin(s', maxBatchSize, events[1..], p);
      }
    }
  }

  lemma {:induction false} LeavesInTime<T>(s: Aggregator<T>, maxBatchSize: int, events: seq<Event<T>>, p: nat)
    requires Valid(s) && CanRun(s, maxBatchSize, events) && p < |s.queue|
    requires Ticks(events) >= Pace(maxBatchSize) * (p / BatchLimit(maxBatchSize)) + 3
    ensures p < |Dispatched(s, maxBatchSize, events)| && Dispatched(s, maxBatchSize, events)[p] == s.queue[p]
  {
    WaitIs(p, maxBatchSize);
    NeededAtMost(p, maxBatchSize, s.tickCounter);
    LeavesWithin(s, maxBatchSize, events, p);
    RunKeepsOrder(s, maxBatchSize, events);
    var d := Dispatched(s, maxBatchSize, events);
    assert (d + Run(s, maxBatchSize, events).queue)[p] == (s.queue + Sends(events))[p];
  }

  /**
   * Without further sends, a queue of requests lets the timer tick at most as often as its last request
   * may need, and is empty after that many ticks; below 2^31 that is ceil(L / limit) + 2.
   */
  lemma {:induction false} DrainsInTime<T>(s: Aggregator<T>, maxBatchSize: int, events: seq<Event<T>>)
    requires Valid(s) && CanRun(s, maxBatchSize, events) && s.queue != []
    requires Sends(events) == []
    ensures Ticks(events) <= Pace(maxBatchSize) * ((|s.queue| - 1) / BatchLimit(maxBatchSize)) + 3
    ensures Ticks(events) == Pace(maxBatchSize) * ((|s.queue| - 1) / BatchLimit(maxBatchSize)) + 3 ==>
              Run(s, maxBatchSize, events).queue == []
  {
    var p := |s.queue| - 1;
    WaitIs(p, maxBatchSize);
    TicksAtMost(s, maxBatchSize, events);
    NeededAtMost(p, maxBatchSize, s.tickCounter);
    if Ticks(events) == Wait(p, maxBatchSize) {
      LeavesWithin(s, maxBatchSize, events, p);
      RunKeepsOrder(s, maxBatchSize, events);
    }
  }

  lemma NeededAtMost(p: nat, maxBatchSize: int, t: nat)
    ensures Needed(p, maxBatchSize, t) <= Wait(p, maxBatchSize)
  {
  }

  lemma {:induction false} TickTowardsEmpty<T>(s: Aggregator<T>, maxBatchSize: int)
    requires Valid(s) && s.queue != []
    ensures
      var s' := TickStep(s, maxBatchSize).0;
      && Valid(s')
      && (s'.queue != [] ==>
            Needed(|s'.queue| - 1, maxBatchSize, s'.tickCounter) <= Needed(|s.queue| - 1, maxBatchSize, s.tickCounter) - 1)
  {
    TickHelps(s, maxBatchSize, |s.queue| - 1);
  }

  lemma {:induction false} TicksAtMost<T>(s: Aggregator<T>, maxBatchSize: int, events: seq<Event<T>>)
    requires Valid(s) && CanRun(s, maxBatchSize, events) && s.queue != []
    requires Sends(events) == []
    ensures Ticks(events) <= Needed(|s.queue| - 1, maxBatchSize, s.tickCounter)
    decreases |events|
  {
    NeededPositive(|s.queue| - 1, maxBatchSize, s.tickCounter);
    if events != [] {
      NoSendFirst(events);
      var s' := TickStep(s, maxBatchSize).0;
      TickTowardsEmpty(s, maxBatchSize);
      if s'.queue != [] {
        TicksAtMost(s', maxBatchSize, events[1..]);
      } else {
        NoTickUnarmed(s', maxBatchSize, events[1..]);
      }
    }
  }

  lemma {:induction false} NoTickUnarmed<T>(s: Aggregator<T>, maxBatchSize: int, events: seq<Event<T>>)
    requires !s.armed && CanRun(s, maxBatchSize, events) && Sends(events) == []
    ensures events == []
  {
  }

  lemma NoSendFirst<T>(events: seq<Event<T>>)
    requires Sends(events) == [] && events != []
    ensures events[0] == Tick && Sends(events[1..]) == []
  {
  }

  lemma NeededPositive(p: nat, maxBatchSize: int, t: nat)
    requires t <= 2
    ensures Needed(p, maxBatchSize, t) >= 1
  {
  }
}
