/** The batching provider as an object: what `send` and the timer callback do to its fields. */
module BatchProvider {
  import opened Common
  import opened Queue
  import A = BatchAggregator
  import L = Limiter

  class ExtendedJsonRpcBatchProvider {
    const maxBatchSize: int
    const queue: Queue<int>
    const concurrencyLimiter: L.PLimit<seq<int>>
    var nextId: int
    var tickCounter: nat
    /** Whether a timer is set. */
    var batchAggregator: bool

    ghost predicate Separate()
      reads this, concurrencyLimiter
    {
      (queue as object) != concurrencyLimiter.queue
    }

    ghost function Contents(): A.Aggregator<int>
      reads this, queue
    {
      A.Aggregator(queue.store, tickCounter, batchAggregator)
    }

    ghost function Limited(): L.Limiter<seq<int>>
      reads concurrencyLimiter, concurrencyLimiter.queue
    {
      concurrencyLimiter.Contents()
    }

    constructor (firstId: int, maxBatchSize: int, concurrency: nat)
      ensures Separate() && nextId == firstId && this.maxBatchSize == maxBatchSize
      ensures concurrencyLimiter.concurrency == concurrency
      ensures Contents() == A.Aggregator([], 0, false) && A.Valid(Contents())
      ensures Limited() == L.Limiter([], 0, 0)
      ensures fresh(queue) && fresh(concurrencyLimiter) && fresh(concurrencyLimiter.queue)
    {
      this.maxBatchSize := maxBatchSize;
      queue := new Queue();
      concurrencyLimiter := new L.PLimit(concurrency);
      nextId := firstId;
      tickCounter := 0;
      batchAggregator := false;
    }

    method StartBatchAggregator()
      modifies this`batchAggregator
      ensures batchAggregator
    {
      if !batchAggregator {
        batchAggregator := true;
      }
    }

    /** Queues a request under a new id and makes sure that the timer runs. */
    method Send() returns (id: int)
      requires Separate()
      modifies this, queue
      ensures Separate()
      ensures id == old(nextId) && nextId == old(nextId) + 1
      ensures Contents() == A.SendStep(old(Contents()), id)
      ensures old(A.Valid(Contents())) ==> A.Valid(Contents())
      ensures Limited() == old(Limited())
    {
      id := nextId;
      nextId := nextId + 1;
      queue.Enqueue(id);
      StartBatchAggregator();
    }

    /** The timer callback: it may hand one batch to the limiter, and sets the timer again while something is queued. */
    method BatchAggregatorTick() returns (batch: Option<seq<int>>)
      requires Separate()
      modifies this, queue, concurrencyLimiter, concurrencyLimiter.queue
      ensures Separate() && nextId == old(nextId)
      ensures (Contents(), batch) == A.TickStep(old(Contents()), maxBatchSize)
      ensures old(A.Valid(Contents())) ==> A.Valid(Contents())
      ensures Limited() == if batch.Some? then L.EnqueueStep(old(Limited()), batch.value) else old(Limited())
    {
      tickCounter := tickCounter + 1;
      batch := None;
      if |queue.store| > maxBatchSize || tickCounter > 2 {
        tickCounter := 0;
        var taken := queue.DequeueMultiple(maxBatchSize);
        concurrencyLimiter.Enqueue(taken);
        batch := Some(taken);
      }
      batchAggregator := false;
      if |queue.store| > 0 {
        StartBatchAggregator();
      }
    }
  }
}
