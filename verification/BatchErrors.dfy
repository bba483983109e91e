/**
 * From the batches of a child provider to the switches of the fallback provider: which error objects the
 * calls of one batch catch, and how often these move the index.
 */
module BatchErrors {
  import opened Common
  import opened Utils
  import opened BatchResponse
  import opened FallbackModel
  import D = FallbackDetection
  import P = BatchPipeline

  // ---------------------------------------------------------------- the errors of one batch

  predicate IsHandled(p: P.State, b: nat) {
    b < |p.started| == |p.status| && p.status[b].Handled?
  }

  /** The request was in batch b and its promise is rejected. */
  predicate Failed(p: P.State, b: nat, id: int)
    requires IsHandled(p, b)
  {
    id in p.started[b] && id in p.settled && p.settled[id].Rejected?
  }

  predicate TimedOut(p: P.State, id: int) {
    id in p.settled && p.settled[id] == Rejected(RequestTimeout(id))
  }

  predicate FailsAsWhole(p: P.State, b: nat)
    requires IsHandled(p, b)
  {
    WholeBatchError(p.status[b].outcome).Some?
  }

  /** The error object a failed request of batch b rejects with, in the child provider of this number. */
  function ErrorOf(provider: nat, p: P.State, b: nat, id: int): ErrorId
    requires IsHandled(p, b)
  {
    if FailsAsWhole(p, b) && !TimedOut(p, id) then BatchRejection(provider, b) else OwnRejection(provider, id)
  }

  function ErrorsOf(provider: nat, p: P.State, b: nat, order: seq<int>): (errors: seq<ErrorId>)
    requires IsHandled(p, b)
    ensures |errors| == |order|
  {
    seq(|order|, i requires 0 <= i < |order| => ErrorOf(provider, p, b, order[i]))
  }

  /** In a reachable state a request is in one batch only. */
  lemma {:induction false} OneBatchEach(cfg: P.Config, p: P.State, b: nat, c: nat, id: int)
    requires P.Inv(cfg, p) && b < c < |p.started| && id in p.started[b]
    ensures id !in p.started[c]
  {
    var left, right := p.started[..c], p.started[c..];
    var all := P.Ids(cfg.firstId, p.nextId);
    assert left + right == p.started;
    FlattenConcat(left, right);
    assert left[b] == p.started[b] && right[0] == p.started[c];
    FlattenHas(left, id);
    FlattenHas(right, id);
    var i :| 0 <= i < |Flatten(left)| && Flatten(left)[i] == id;
    assert all[i] == id;
    forall j | 0 <= j < |Flatten(right)|
      ensures Flatten(right)[j] != id
    {
      assert all[|Flatten(left)| + j] == Flatten(right)[j];
    }
  }

  /** What a failed request of a handled batch rejects with: its timeout, or what the answer means for it. */
  lemma {:induction false} FailureIsOwnOrAnswer(cfg: P.Config, p: P.State, b: nat, id: int)
    requires P.Inv(cfg, p) && IsHandled(p, b) && Failed(p, b, id)
    ensures TimedOut(p, id) || p.settled[id] == SettlementFor(p.status[b].outcome, id)
  {
    assert P.Explained(cfg, p, id);
    if !TimedOut(p, id) {
      var c :| 0 <= c < |p.started| && P.AnsweredBy(p, id, c);
      if b < c {
        OneBatchEach(cfg, p, b, c, id);
      } else if c < b {
        OneBatchEach(cfg, p, c, b, id);
      }
    }
  }

  /** Failures that share an error object are the same failure: one error for all, or one request. */
  lemma {:induction false} SharedErrorIsOneError(cfg: P.Config, provider: nat, p: P.State, b: nat, x: int, y: int)
    requires P.Inv(cfg, p) && IsHandled(p, b) && Failed(p, b, x) && Failed(p, b, y)
    requires ErrorOf(provider, p, b, x) == ErrorOf(provider, p, b, y)
    ensures p.settled[x] == p.settled[y]
  {
    FailureIsOwnOrAnswer(cfg, p, b, x);
    FailureIsOwnOrAnswer(cfg, p, b, y);
  }

  // ---------------------------------------------------------------- where settlements come from

  /** Every answer that a batch has, came. */
  ghost predicate AnswersCame(p: P.State, steps: seq<P.Step>) {
    forall b :: 0 <= b < |p.status| && !p.status[b].Fetching? ==> P.Arrive(b, p.status[b].outcome) in steps
  }

  lemma {:induction false} RunAnswersCame(cfg: P.Config, p: P.State, past: seq<P.Step>, steps: seq<P.Step>)
    requires P.CanRun(cfg, p, steps) && AnswersCame(p, past)
    ensures AnswersCame(P.Run(cfg, p, steps), past + steps)
    decreases |steps|
  {
    if steps == [] {
      assert past + steps == past;
    } else {
      var next := P.Apply(cfg, p, steps[0]);
      assert AnswersCame(next, past + [steps[0]]);
      RunAnswersCame(cfg, next, past + [steps[0]], steps[1..]);
      assert past + [steps[0]] + steps[1..] == past + steps;
    }
  }

  /** The answer that settled a request: it came for the batch that holds the request, and promises this. */
  ghost predicate SettledBy(p: P.State, steps: seq<P.Step>, id: int, b: nat) {
    && b < |p.started| == |p.status| && id in p.started[b] && id in p.settled
    && p.status[b].Handled?
    && P.Arrive(b, p.status[b].outcome) in steps
    && Promised(p.status[b].outcome, id, p.settled[id])
  }

  /** After any run a settled request has its timeout, or what the answer that came for its own batch promises it. */
  lemma {:induction false} SettlementHasCause(cfg: P.Config, steps: seq<P.Step>, id: int)
    requires P.CanRun(cfg, P.Initial(cfg), steps) && id in P.Run(cfg, P.Initial(cfg), steps).settled
    ensures
      var p := P.Run(cfg, P.Initial(cfg), steps);
      || (cfg.timeouts && p.settled[id] == Rejected(RequestTimeout(id)))
      || exists b :: SettledBy(p, steps, id, b)
  {
    var p := P.Run(cfg, P.Initial(cfg), steps);
    P.InitialInv(cfg);
    P.RunKeepsInv(cfg, P.Initial(cfg), steps);
    RunAnswersCame(cfg, P.Initial(cfg), [], steps);
    assert [] + steps == steps;
    assert P.Explained(cfg, p, id);
    if b :| 0 <= b < |p.started| && P.AnsweredBy(p, id, b) {
      OneSettlementIsPromised(p.status[b].outcome, id, p.settled[id]);
      assert SettledBy(p, steps, id, b);
    }
  }

  /**
   * A request is resolved only by a payload with its own id and no error, the last one in an answer that
   * came for its own batch, and with the result of that payload.
   */
  lemma {:induction false} ResolvedByOwnPayload(cfg: P.Config, steps: seq<P.Step>, id: int) returns (b: nat, payloads: seq<Payload>, i: nat)
    requires P.CanRun(cfg, P.Initial(cfg), steps) && id in P.Run(cfg, P.Initial(cfg), steps).settled
    requires P.Run(cfg, P.Initial(cfg), steps).settled[id].Resolved?
    ensures
      var p := P.Run(cfg, P.Initial(cfg), steps);
      && b < |p.started| && id in p.started[b] && P.Arrive(b, Answer(payloads)) in steps
      && i < |payloads| && payloads[i].Payload? && payloads[i].id == Some(id) && payloads[i].error.None?
      && (forall j :: i < j < |payloads| && payloads[j].Payload? ==> payloads[j].id != Some(id))
      && p.settled[id].result == payloads[i].result
  {
    SettlementHasCause(cfg, steps, id);
    var p := P.Run(cfg, P.Initial(cfg), steps);
    b :| SettledBy(p, steps, id, b);
    payloads := p.status[b].outcome.payloads;
    OneSettlementIsPromised(Answer(payloads), id, p.settled[id]);
    i :| 0 <= i < |payloads| && payloads[i] == LastWithId(payloads, id).value && IsLastWithId(payloads, id, i);
  }

  // ---------------------------------------------------------------- how often they switch

  predicate AllTimely(p: P.State, order: seq<int>) {
    forall i :: 0 <= i < |order| ==> !TimedOut(p, order[i])
  }

  ghost predicate NoRepeats(order: seq<int>) {
    forall i, j :: 0 <= i < j < |order| ==> order[i] != order[j]
  }

  /** The calls of a batch that fails as a whole, timeouts aside, catch one object and switch at most once. */
  lemma {:induction false} WholeBatchSwitchesOnce(provider: nat, p: P.State, b: nat, order: seq<int>, last: Option<ErrorId>)
    requires IsHandled(p, b) && FailsAsWhole(p, b) && AllTimely(p, order)
    ensures Changes(last, ErrorsOf(provider, p, b, order)) <= 1
  {
    SameErrorSwitchesOnce(last, ErrorsOf(provider, p, b, order), BatchRejection(provider, b));
  }

  /** Requests that fail by themselves catch an object each, and each of them switches. */
  lemma {:induction false} OwnErrorsSwitchEach(provider: nat, p: P.State, b: nat, order: seq<int>, last: Option<ErrorId>)
    requires IsHandled(p, b) && NoRepeats(order) && (FailsAsWhole(p, b) ==> forall i :: 0 <= i < |order| ==> TimedOut(p, order[i]))
    requires forall i :: 0 <= i < |order| ==> last != Some(ErrorOf(provider, p, b, order[i]))
    ensures Changes(last, ErrorsOf(provider, p, b, order)) == |order|
  {
    var errors := ErrorsOf(provider, p, b, order);
    forall i | 0 <= i < |errors|
      ensures Before(last, errors, i) != Some(errors[i])
    {
      assert i > 0 ==> order[i - 1] != order[i];
    }
    AllDifferMeansOneEach(last, errors);
  }

  /**
   * The exact condition: the failed calls of one batch, caught in any order and none of them before, move the
   * index at most once if and only if there is at most one of them, or the batch failed as a whole and none
   * of them timed out.
   */
  lemma {:induction false} BatchSwitchesOnceExactly(provider: nat, p: P.State, b: nat, order: seq<int>, last: Option<ErrorId>)
    requires IsHandled(p, b) && NoRepeats(order)
    requires forall i :: 0 <= i < |order| ==> last != Some(ErrorOf(provider, p, b, order[i]))
    ensures Changes(last, ErrorsOf(provider, p, b, order)) <= 1
            <==> |order| <= 1 || (FailsAsWhole(p, b) && AllTimely(p, order))
  {
    var errors := ErrorsOf(provider, p, b, order);
    OneSwitchExactly(last, errors);
    assert errors != [] ==> errors[0] == ErrorOf(provider, p, b, order[0]);
    assert AfterRepeats(last, errors) == errors;
    if |order| > 1 && AllTheSame(errors) {
      assert errors[1] == errors[0] && order[0] != order[1];
      assert FailsAsWhole(p, b);
      forall i | 0 <= i < |order|
        ensures !TimedOut(p, order[i])
      {
        assert errors[i] == errors[0] == BatchRejection(provider, b);
      }
    }
  }

  /** However lookups interleave: the index moves on as often as the errors of the batch change. */
  lemma {:induction false} BatchMovesIndex(config: Networkish, s: D.State, events: seq<D.Event>,
                                           provider: nat, p: P.State, b: nat, order: seq<int>)
    requires AllValid(s.providers, config) && s.active < |s.providers|
    requires forall i :: 0 <= i < |events| ==> events[i].Lookup? || events[i].Catch?
    requires IsHandled(p, b) && D.CaughtIn(events) == ErrorsOf(provider, p, b, order)
    ensures D.Run(config, s, events).active
            == (s.active + Changes(s.lastPerformError, ErrorsOf(provider, p, b, order))) % |s.providers|
    ensures FailsAsWhole(p, b) && AllTimely(p, order) ==>
              || D.Run(config, s, events).active == s.active
              || D.Run(config, s, events).active == NextIndex(|s.providers|, s.active)
  {
    D.InterleavedCatches(config, s, events);
    if FailsAsWhole(p, b) && AllTimely(p, order) {
      WholeBatchSwitchesOnce(provider, p, b, order, s.lastPerformError);
      TurnIs(s.active, 0, |s.providers|);
      NextIndexInRange(|s.providers|, s.active);
      if |s.providers| > 1 {
        TurnIs(s.active, 1, |s.providers|);
      } else {
        ModTurn(0, 1);
      }
    }
  }

  // ---------------------------------------------------------------- a partial answer

  const CFG: P.Config := P.Config(0, 2, 1, false)

  /** Two requests in one batch, and an answer without either. */
  const STEPS: seq<P.Step> :=
    [P.Send, P.Send, P.Tick, P.Tick, P.Tick, P.Wake, P.Arrive(0, Answer([])), P.Handle(0)]

  lemma {:induction false} OneStep(s: P.State, steps: seq<P.Step>)
    requires steps != [] && P.Enabled(CFG, s, steps[0]) && P.CanRun(CFG, P.Apply(CFG, s, steps[0]), steps[1..])
    ensures P.CanRun(CFG, s, steps)
    ensures P.Run(CFG, s, steps) == P.Run(CFG, P.Apply(CFG, s, steps[0]), steps[1..])
  {
  }

  function AfterTicks(t: nat): P.State {
    P.State(2, P.A.Aggregator([0, 1], t, true), P.L.Limiter([], 0, 0), [], [], 0, map[])
  }

  function AfterBatch(): P.State {
    P.State(2, P.A.Aggregator([], 0, false), P.L.Limiter([[0, 1]], 0, 1), [], [], 0, map[])
  }

  lemma {:induction false} TwoSends()
    requires P.CanRun(CFG, AfterTicks(0), STEPS[2..])
    ensures P.CanRun(CFG, P.Initial(CFG), STEPS)
    ensures P.Run(CFG, P.Initial(CFG), STEPS) == P.Run(CFG, AfterTicks(0), STEPS[2..])
  {
    var s1 := P.Apply(CFG, P.Initial(CFG), P.Send);
    assert P.Apply(CFG, s1, P.Send) == AfterTicks(0);
    OneStep(s1, STEPS[1..]);
    OneStep(P.Initial(CFG), STEPS);
  }

  lemma {:induction false} ThreeTicks()
    requires P.CanRun(CFG, AfterBatch(), STEPS[5..])
    ensures P.CanRun(CFG, AfterTicks(0), STEPS[2..])
    ensures P.Run(CFG, AfterTicks(0), STEPS[2..]) == P.Run(CFG, AfterBatch(), STEPS[5..])
  {
    assert P.Apply(CFG, AfterTicks(2), P.Tick) == AfterBatch();
    OneStep(AfterTicks(2), STEPS[4..]);
    assert P.Apply(CFG, AfterTicks(1), P.Tick) == AfterTicks(2);
    OneStep(AfterTicks(1), STEPS[3..]);
    assert P.Apply(CFG, AfterTicks(0), P.Tick) == AfterTicks(1);
    OneStep(AfterTicks(0), STEPS[2..]);
  }

  /** With one started batch in this status. */
  function AfterStart(status: P.Status, releases: nat, settled: map<int, Settlement>): P.State {
    P.State(2, P.A.Aggregator([], 0, false), P.L.Limiter([], 1, 0), [[0, 1]], [status], releases, settled)
  }

  function AfterHandling(): P.State {
    AfterStart(P.Handled(Answer([])), 1, SettleBatch(map[], [0, 1], Answer([])))
  }

  lemma {:induction false} AnswerAndHandle()
    ensures P.CanRun(CFG, AfterBatch(), STEPS[5..])
    ensures P.Run(CFG, AfterBatch(), STEPS[5..]) == AfterHandling()
  {
    var arrived := AfterStart(P.Arrived(Answer([])), 1, map[]);
    assert P.Apply(CFG, arrived, P.Handle(0)) == AfterHandling();
    OneStep(arrived, STEPS[7..]);
    assert P.Apply(CFG, AfterStart(P.Fetching, 0, map[]), P.Arrive(0, Answer([]))) == arrived;
    OneStep(AfterStart(P.Fetching, 0, map[]), STEPS[6..]);
    assert P.Apply(CFG, AfterBatch(), P.Wake) == AfterStart(P.Fetching, 0, map[]);
    OneStep(AfterBatch(), STEPS[5..]);
  }

  /** In a reachable state a batch of two is answered by an empty list and both its requests have failed. */
  lemma {:induction false} PartialAnswerIsReachable()
    ensures P.CanRun(CFG, P.Initial(CFG), STEPS) && P.Run(CFG, P.Initial(CFG), STEPS) == AfterHandling()
    ensures IsHandled(AfterHandling(), 0) && !FailsAsWhole(AfterHandling(), 0)
    ensures Failed(AfterHandling(), 0, 0) && Failed(AfterHandling(), 0, 1)
  {
    AnswerAndHandle();
    ThreeTicks();
    TwoSends();
    assert AfterHandling().started[0] == [0, 1];
  }

  /** Over three providers the two calls of that batch move the index from 0 to 2. */
  lemma {:induction false} PartialAnswerSwitchesTwice(config: Networkish, ps: seq<Provider>, provider: nat, p: P.State)
    requires |ps| == 3 && AllValid(ps, config)
    requires P.CanRun(CFG, P.Initial(CFG), STEPS) && p == P.Run(CFG, P.Initial(CFG), STEPS)
    ensures IsHandled(p, 0) && Failed(p, 0, 0) && Failed(p, 0, 1)
    ensures D.Run(config, D.State(ps, 0, None),
                  [D.Catch(ErrorOf(provider, p, 0, 0)), D.Catch(ErrorOf(provider, p, 0, 1))]).active == 2
  {
    PartialAnswerIsReachable();
    D.TwoErrorsSwitchTwice(config, ps, ErrorOf(provider, p, 0, 0), ErrorOf(provider, p, 0, 1));
  }
}
