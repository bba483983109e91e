/**
 * The whole batching pipeline as one state machine: aggregator, limiter, fetches in flight, handlers
 * and request timeouts, interleaved in any order.
 */
module BatchPipeline {
  import opened Common
  import opened Utils
  import opened Queue
  import opened BatchResponse
  import A = BatchAggregator
  import L = Limiter

  type Batch = seq<int>

  /** A started batch: on the wire, answered but not yet handled, or handled. */
  datatype Status = Fetching | Arrived(outcome: Outcome) | Handled(outcome: Outcome)

  datatype Config = Config(firstId: int, maxBatchSize: int, concurrency: nat, timeouts: bool)

  /**
   * `started` lists the batches in the order in which their fetches start, `status` goes with it, and
   * `releases` counts the answered fetches whose limiter slot is not freed yet.
   */
  datatype State = State(nextId: int, aggregator: A.Aggregator<int>, limiter: L.Limiter<Batch>,
                         started: seq<Batch>, status: seq<Status>, releases: nat, settled: map<int, Settlement>)

  function Initial(cfg: Config): State {
    State(cfg.firstId, A.Aggregator([], 0, false), L.Limiter([], 0, 0), [], [], 0, map[])
  }

  datatype Step = Send | Tick | Wake | Arrive(b: nat, outcome: Outcome) | Release | Handle(b: nat) | Expire(id: int)

  predicate Enabled(cfg: Config, s: State, step: Step) {
    match step
    case Send => true
    case Tick => s.aggregator.armed
    case Wake => s.limiter.wakeups > 0
    case Arrive(b, _) => b < |s.status| && s.status[b].Fetching?
    case Release => s.releases > 0 && s.limiter.active > 0
    case Handle(b) => b < |s.status| && b < |s.started| && s.status[b].Arrived?
    case Expire(id) => cfg.timeouts && cfg.firstId <= id < s.nextId && id !in s.settled
  }

  function WithStarted(s: State, r: (L.Limiter<Batch>, Option<Batch>)): State {
    match r.1
    case None => s.(limiter := r.0)
    case Some(batch) => s.(limiter := r.0, started := s.started + [batch], status := s.status + [Fetching])
  }

  function Apply(cfg: Config, s: State, step: Step): State
    requires Enabled(cfg, s, step)
  {
    match step
    case Send => s.(nextId := s.nextId + 1, aggregator := A.SendStep(s.aggregator, s.nextId))
    case Tick =>
      var (aggregator, batch) := A.TickStep(s.aggregator, cfg.maxBatchSize);
      s.(aggregator := aggregator,
         limiter := if batch.Some? then L.EnqueueStep(s.limiter, batch.value) else s.limiter)
    case Wake => WithStarted(s, L.WakeStep(s.limiter, cfg.concurrency))
    case Arrive(b, outcome) => s.(status := s.status[b := Arrived(outcome)], releases := s.releases + 1)
    case Release => WithStarted(s.(releases := s.releases - 1), L.NextStep(s.limiter))
    case Handle(b) =>
      var outcome := s.status[b].outcome;
      s.(status := s.status[b := Handled(outcome)], settled := SettleBatch(s.settled, s.started[b], outcome))
    case Expire(id) => s.(settled := Settle(s.settled, id, Rejected(RequestTimeout(id))))
  }

  // ---------------------------------------------------------------- the invariant

  function Ids(first: int, next: int): seq<int>
    requires first <= next
  {
    seq(next - first, i => first + i)
  }

  function CountFetching(status: seq<Status>): nat {
    if status == [] then 0
    else CountFetching(status[..|status| - 1]) + (if status[|status| - 1].Fetching? then 1 else 0)
  }

  /** Every request sent is, in order, in a started batch, in a waiting batch, or queued. */
  ghost predicate InOrder(cfg: Config, s: State) {
    && cfg.firstId <= s.nextId
    && Flatten(s.started) + Flatten(s.limiter.waiting) + s.aggregator.queue == Ids(cfg.firstId, s.nextId)
  }

  predicate GoodBatch(cfg: Config, batch: Batch) {
    0 < |batch| <= BatchLimit(cfg.maxBatchSize)
  }

  ghost predicate GoodBatches(cfg: Config, s: State) {
    && (forall i :: 0 <= i < |s.started| ==> GoodBatch(cfg, s.started[i]))
    && (forall i :: 0 <= i < |s.limiter.waiting| ==> GoodBatch(cfg, s.limiter.waiting[i]))
  }

  /** The settlement came from the answer to the batch that carried the request, or from its timeout. */
  ghost predicate Explained(cfg: Config, s: State, id: int)
    requires id in s.settled && |s.status| == |s.started|
  {
    || (cfg.timeouts && s.settled[id] == Rejected(RequestTimeout(id)))
    || exists b :: 0 <= b < |s.started| && AnsweredBy(s, id, b)
  }

  predicate AnsweredBy(s: State, id: int, b: nat)
    requires id in s.settled && b < |s.started| == |s.status|
  {
    s.status[b].Handled? && id in s.started[b] && s.settled[id] == SettlementFor(s.status[b].outcome, id)
  }

  ghost predicate SettledInv(cfg: Config, s: State) {
    && |s.status| == |s.started|
    && (forall b, id :: 0 <= b < |s.status| && s.status[b].Handled? && id in s.started[b] ==> id in s.settled)
    && (forall id :: id in s.settled ==> cfg.firstId <= id < s.nextId)
    && (forall id :: id in s.settled ==> Explained(cfg, s, id))
  }

  ghost predicate LimiterInv(cfg: Config, s: State) {
    && L.Valid(s.limiter, cfg.concurrency)
    && s.limiter.active == CountFetching(s.status) + s.releases
  }

  ghost predicate Inv(cfg: Config, s: State) {
    && InOrder(cfg, s)
    && GoodBatches(cfg, s)
    && A.Valid(s.aggregator)
    && LimiterInv(cfg, s)
    && SettledInv(cfg, s)
  }

  lemma {:induction false} CountUpdated(status: seq<Status>, b: nat, next: Status)
    requires b < |status|
    ensures CountFetching(status[b := next]) + (if status[b].Fetching? then 1 else 0)
            == CountFetching(status) + (if next.Fetching? then 1 else 0)
    decreases |status|
  {
    var n := |status| - 1;
    if b < n {
      CountUpdated(status[..n], b, next);
      assert status[b := next][..n] == status[..n][b := next];
    } else {
      assert status[b := next][..n] == status[..n];
    }
  }

  lemma CountAppended(status: seq<Status>)
    ensures CountFetching(status + [Fetching]) == CountFetching(status) + 1
  {
    assert (status + [Fetching])[..|status|] == status;
  }

  lemma {:induction false} StartKeepsOrder(started: seq<Batch>, waiting: seq<Batch>, queue: seq<int>)
    requires waiting != []
    ensures Flatten(started + [waiting[0]]) + Flatten(waiting[1..]) + queue == Flatten(started) + Flatten(waiting) + queue
  {
    FlattenAppend(started, waiting[0]);
    Regroup(Flatten(started), waiting[0], Flatten(waiting[1..]));
  }

  lemma {:induction false} SendKeepsOrder(cfg: Config, s: State)
    requires InOrder(cfg, s)
    ensures InOrder(cfg, Apply(cfg, s, Send))
  {
    Regroup(Flatten(s.started) + Flatten(s.limiter.waiting), s.aggregator.queue, [s.nextId]);
    assert Ids(cfg.firstId, s.nextId) + [s.nextId] == Ids(cfg.firstId, s.nextId + 1);
  }

  lemma {:induction false} SendKeepsInv(cfg: Config, s: State)
    requires Inv(cfg, s)
    ensures Inv(cfg, Apply(cfg, s, Send))
  {
    SendKeepsOrder(cfg, s);
    StillExplained(cfg, s, Apply(cfg, s, Send));
  }

  /** Settled requests stay explained while handled batches stay. */
  lemma {:induction false} StillExplained(cfg: Config, s: State, s': State)
    requires SettledInv(cfg, s) && s'.settled == s.settled && |s'.status| == |s'.started|
    requires |s.started| <= |s'.started|
    requires forall b :: 0 <= b < |s.started| ==> s'.started[b] == s.started[b] && (s.status[b].Handled? ==> s'.status[b] == s.status[b])
    ensures forall id :: id in s'.settled ==> Explained(cfg, s', id)
  {
    forall id | id in s'.settled
      ensures Explained(cfg, s', id)
    {
      assert Explained(cfg, s, id);
      if b :| 0 <= b < |s.started| && AnsweredBy(s, id, b) {
        assert AnsweredBy(s', id, b);
      }
    }
  }

  lemma {:induction false} TickKeepsInv(cfg: Config, s: State)
    requires Inv(cfg, s) && Enabled(cfg, s, Tick)
    ensures Inv(cfg, Apply(cfg, s, Tick))
  {
    var s' := Apply(cfg, s, Tick);
    var (aggregator, batch) := A.TickStep(s.aggregator, cfg.maxBatchSize);
    if batch.Some? {
      FlattenAppend(s.limiter.waiting, batch.value);
      Regroup(Flatten(s.started), Flatten(s.limiter.waiting), batch.value);
      Regroup(Flatten(s.started) + Flatten(s.limiter.waiting), batch.value, aggregator.queue);
    }
    StillExplained(cfg, s, s');
  }

  /** A limiter step that starts nothing. */
  lemma {:induction false} IdleStepKeepsInv(cfg: Config, s: State, s': State)
    requires Inv(cfg, s)
    requires s' == s.(limiter := s'.limiter, releases := s'.releases) && s'.limiter.waiting == s.limiter.waiting
    requires LimiterInv(cfg, s')
    ensures Inv(cfg, s')
  {
    StillExplained(cfg, s, s');
  }

  /** A limiter step that starts the first waiting batch. */
  lemma {:induction false} StartKeepsInv(cfg: Config, s: State, s': State)
    requires Inv(cfg, s) && s.limiter.waiting != []
    requires s' == s.(limiter := s'.limiter, releases := s'.releases,
                      started := s.started + [s.limiter.waiting[0]], status := s.status + [Fetching])
    requires s'.limiter.waiting == s.limiter.waiting[1..]
    requires LimiterInv(cfg, s')
    ensures Inv(cfg, s')
  {
    StartKeepsOrder(s.started, s.limiter.waiting, s.aggregator.queue);
    assert InOrder(cfg, s');
    assert GoodBatches(cfg, s');
    StillExplained(cfg, s, s');
  }

  lemma {:induction false} LimiterStepKeepsInv(cfg: Config, s: State, step: Step)
    requires Inv(cfg, s) && Enabled(cfg, s, step) && (step.Wake? || step.Release?)
    ensures Inv(cfg, Apply(cfg, s, step))
  {
    var s' := Apply(cfg, s, step);
    L.StepsKeepValid(s.limiter, cfg.concurrency, []);
    CountAppended(s.status);
    if |s'.started| > |s.started| {
      StartKeepsInv(cfg, s, s');
    } else {
      IdleStepKeepsInv(cfg, s, s');
    }
  }

  lemma {:induction false} ArriveKeepsInv(cfg: Config, s: State, b: nat, outcome: Outcome)
    requires Inv(cfg, s) && Enabled(cfg, s, Arrive(b, outcome))
    ensures Inv(cfg, Apply(cfg, s, Arrive(b, outcome)))
  {
    CountUpdated(s.status, b, Arrived(outcome));
    StillExplained(cfg, s, Apply(cfg, s, Arrive(b, outcome)));
  }

  lemma {:induction false} StartedIds(cfg: Config, s: State, b: nat, id: int)
    requires InOrder(cfg, s) && b < |s.started| && id in s.started[b]
    ensures cfg.firstId <= id < s.nextId
  {
    FlattenHas(s.started, id);
    var ids := Ids(cfg.firstId, s.nextId);
    assert id in Flatten(s.started) + Flatten(s.limiter.waiting) + s.aggregator.queue;
    assert id in ids;
  }

  lemma {:induction false} HandleKeepsInv(cfg: Config, s: State, b: nat)
    requires Inv(cfg, s) && Enabled(cfg, s, Handle(b))
    ensures Inv(cfg, Apply(cfg, s, Handle(b)))
  {
    var s' := Apply(cfg, s, Handle(b));
    CountUpdated(s.status, b, s'.status[b]);
    EveryRequestSettles(s.settled, s.started[b], s.status[b].outcome);
    forall id | id in s'.settled
      ensures cfg.firstId <= id < s'.nextId && Explained(cfg, s', id)
    {
      if id in s.settled {
        assert Explained(cfg, s, id);
        if c :| 0 <= c < |s.started| && AnsweredBy(s, id, c) {
          assert AnsweredBy(s', id, c);
        }
      } else {
        assert id in s.started[b];
        StartedIds(cfg, s, b, id);
        assert AnsweredBy(s', id, b);
      }
    }
  }

  lemma {:induction false} ExpireKeepsInv(cfg: Config, s: State, id: int)
    requires Inv(cfg, s) && Enabled(cfg, s, Expire(id))
    ensures Inv(cfg, Apply(cfg, s, Expire(id)))
  {
    var s' := Apply(cfg, s, Expire(id));
    forall other | other in s'.settled
      ensures Explained(cfg, s', other)
    {
      if other in s.settled {
        assert Explained(cfg, s, other);
        if c :| 0 <= c < |s.started| && AnsweredBy(s, other, c) {
          assert AnsweredBy(s', other, c);
        }
      }
    }
  }

  lemma {:induction false} StepKeepsInv(cfg: Config, s: State, step: Step)
    requires Inv(cfg, s) && Enabled(cfg, s, step)
    ensures Inv(cfg, Apply(cfg, s, step))
  {
    match step
    case Send => SendKeepsInv(cfg, s);
    case Tick => TickKeepsInv(cfg, s);
    case Wake => LimiterStepKeepsInv(cfg, s, step);
    case Arrive(b, outcome) => ArriveKeepsInv(cfg, s, b, outcome);
    case Release => LimiterStepKeepsInv(cfg, s, step);
    case Handle(b) => HandleKeepsInv(cfg, s, b);
    case Expire(id) => ExpireKeepsInv(cfg, s, id);
  }

  // ---------------------------------------------------------------- runs

  predicate CanRun(cfg: Config, s: State, steps: seq<Step>)
    decreases |steps|
  {
    steps != [] ==> Enabled(cfg, s, steps[0]) && CanRun(cfg, Apply(cfg, s, steps[0]), steps[1..])
  }

  function Run(cfg: Config, s: State, steps: seq<Step>): State
    requires CanRun(cfg, s, steps)
    decreases |steps|
  {
    if steps == [] then s else Run(cfg, Apply(cfg, s, steps[0]), steps[1..])
  }

  lemma {:induction false} RunKeepsInv(cfg: Config, s: State, steps: seq<Step>)
    requires Inv(cfg, s) && CanRun(cfg, s, steps)
    ensures Inv(cfg, Run(cfg, s, steps))
    decreases |steps|
  {
    if steps != [] {
      StepKeepsInv(cfg, s, steps[0]);
      RunKeepsInv(cfg, Apply(cfg, s, steps[0]), steps[1..]);
    }
  }

  lemma InitialInv(cfg: Config)
    ensures Inv(cfg, Initial(cfg))
  {
    assert Ids(cfg.firstId, cfg.firstId) == [];
  }

  /** A settled request never changes: the first settlement wins against timeouts and later answers. */
  lemma {:induction false} SettledForGood(cfg: Config, s: State, steps: seq<Step>, id: int)
    requires CanRun(cfg, s, steps) && id in s.settled
    ensures id in Run(cfg, s, steps).settled && Run(cfg, s, steps).settled[id] == s.settled[id]
    decreases |steps|
  {
    if steps != [] {
      SettledForGood(cfg, Apply(cfg, s, steps[0]), steps[1..], id);
    }
  }

  /** Nothing is left to do except sending: no timer, no microtask, no fetch and no handler is pending. */
  predicate Idle(s: State) {
    && !s.aggregator.armed
    && s.limiter.wakeups == 0
    && s.releases == 0
    && forall b :: 0 <= b < |s.status| ==> s.status[b].Handled?
  }

  lemma {:induction false} NoneFetching(status: seq<Status>)
    requires forall b :: 0 <= b < |status| ==> status[b].Handled?
    ensures CountFetching(status) == 0
    decreases |status|
  {
    if status != [] {
      NoneFetching(status[..|status| - 1]);
    }
  }

  /**
   * When the pipeline comes to rest, every request ever sent is settled, by the answer to its own batch
   * or by its timeout, and the batches are the requests in the order in which they were sent.
   */
  lemma {:induction false} RestMeansAllSettled(cfg: Config, steps: seq<Step>)
    requires cfg.concurrency > 0 && CanRun(cfg, Initial(cfg), steps) && Idle(Run(cfg, Initial(cfg), steps))
    ensures
      var s := Run(cfg, Initial(cfg), steps);
      && cfg.firstId <= s.nextId && |s.status| == |s.started|
      && Flatten(s.started) == Ids(cfg.firstId, s.nextId)
      && (forall i :: 0 <= i < |s.started| ==> GoodBatch(cfg, s.started[i]))
      && (forall id :: cfg.firstId <= id < s.nextId ==> id in s.settled && Explained(cfg, s, id))
  {
    var s := Run(cfg, Initial(cfg), steps);
    InitialInv(cfg);
    RunKeepsInv(cfg, Initial(cfg), steps);
    NoneFetching(s.status);
    assert s.limiter.waiting == [] && s.aggregator.queue == [];
    assert Flatten(s.started) + [] + [] == Flatten(s.started);
    forall id | cfg.firstId <= id < s.nextId
      ensures id in s.settled && Explained(cfg, s, id)
    {
      assert Ids(cfg.firstId, s.nextId)[id - cfg.firstId] == id;
      FlattenHas(s.started, id);
      var b :| 0 <= b < |s.started| && id in s.started[b];
      assert s.status[b].Handled?;
    }
  }

  // ---------------------------------------------------------------- the pipeline comes to rest

  /** In a reachable state, some step is possible unless the pipeline rests. */
  lemma {:induction false} WorkIsPossible(cfg: Config, s: State) returns (step: Step)
    requires Inv(cfg, s) && !Idle(s)
    ensures Enabled(cfg, s, step) && !step.Send?
  {
    if s.aggregator.armed {
      step := Tick;
    } else if s.limiter.wakeups > 0 {
      step := Wake;
    } else if s.releases > 0 {
      step := Release;
    } else {
      var b :| 0 <= b < |s.status| && !s.status[b].Handled?;
      step := if s.status[b].Fetching? then Arrive(b, NullAnswer) else Handle(b);
    }
  }

  function StatusWork(status: seq<Status>): nat {
    if status == [] then 0
    else
      var last := status[|status| - 1];
      StatusWork(status[..|status| - 1]) + (match last case Fetching => 3 case Arrived(_) => 1 case Handled(_) => 0)
  }

  function OpenIds(first: int, next: int, settled: map<int, Settlement>): nat
    requires first <= next
    decreases next - first
  {
    if first == next then 0 else (if first in settled then 0 else 1) + OpenIds(first + 1, next, settled)
  }

  /** An upper bound on the steps that remain when nothing more is sent. */
  function Work(cfg: Config, s: State): nat
    requires cfg.firstId <= s.nextId && s.aggregator.tickCounter <= 2
  {
    10 * |s.aggregator.queue| + (if s.aggregator.armed then 3 - s.aggregator.tickCounter else 0)
    + 6 * |s.limiter.waiting| + s.limiter.wakeups + s.releases + StatusWork(s.status)
    + OpenIds(cfg.firstId, s.nextId, s.settled)
  }

  lemma {:induction false} StatusWorkUpdated(status: seq<Status>, b: nat, next: Status)
    requires b < |status| && !next.Fetching?
    requires status[b].Fetching? || (status[b].Arrived? && next.Handled?)
    ensures StatusWork(status[b := next]) < StatusWork(status)
    ensures status[b].Fetching? && next.Arrived? ==> StatusWork(status[b := next]) == StatusWork(status) - 2
    decreases |status|
  {
    var n := |status| - 1;
    if b < n {
      StatusWorkUpdated(status[..n], b, next);
      assert status[b := next][..n] == status[..n][b := next];
    } else {
      assert status[b := next][..n] == status[..n];
    }
  }

  lemma StatusWorkAppended(status: seq<Status>)
    ensures StatusWork(status + [Fetching]) == StatusWork(status) + 3
  {
    assert (status + [Fetching])[..|status|] == status;
  }

  lemma {:induction false} OpenIdsShrink(first: int, next: int, a: map<int, Settlement>, b: map<int, Settlement>, id: int)
    requires first <= next && a.Keys <= b.Keys
    ensures OpenIds(first, next, b) <= OpenIds(first, next, a)
    ensures first <= id < next && id !in a && id in b ==> OpenIds(first, next, b) < OpenIds(first, next, a)
    decreases next - first
  {
    if first < next {
      assert first in a ==> first in b;
      OpenIdsShrink(first + 1, next, a, b, id);
    }
  }

  lemma {:induction false} StepDoesWork(cfg: Config, s: State, step: Step)
    requires Inv(cfg, s) && Enabled(cfg, s, step) && !step.Send?
    ensures cfg.firstId <= Apply(cfg, s, step).nextId && Apply(cfg, s, step).aggregator.tickCounter <= 2
    ensures Work(cfg, Apply(cfg, s, step)) < Work(cfg, s)
  {
    StatusWorkAppended(s.status);
    match step
    case Tick =>
    case Wake =>
    case Arrive(b, outcome) => StatusWorkUpdated(s.status, b, Arrived(outcome));
    case Release =>
    case Handle(b) =>
      StatusWorkUpdated(s.status, b, Handled(s.status[b].outcome));
      OpenIdsShrink(cfg.firstId, s.nextId, s.settled, Apply(cfg, s, step).settled, cfg.firstId);
    case Expire(id) =>
      OpenIdsShrink(cfg.firstId, s.nextId, s.settled, Apply(cfg, s, step).settled, id);
  }

  /** Once sending stops, the pipeline takes at most Work(s) more steps, in whatever order they come. */
  lemma {:induction false} ComesToRest(cfg: Config, s: State, steps: seq<Step>)
    requires Inv(cfg, s) && CanRun(cfg, s, steps)
    requires forall i :: 0 <= i < |steps| ==> !steps[i].Send?
    ensures |steps| <= Work(cfg, s)
    decreases |steps|
  {
    if steps != [] {
      StepKeepsInv(cfg, s, steps[0]);
      StepDoesWork(cfg, s, steps[0]);
      ComesToRest(cfg, Apply(cfg, s, steps[0]), steps[1..]);
    }
  }
}
