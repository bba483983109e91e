/** One perform call while other calls, detections and resets go on. */
module FallbackInterleaving {
  import opened Common
  import opened FallbackModel
  import opened FallbackDetection

  /**
   * What others do while a perform call runs: `lookup(c)` happens just before its lookup number c, and
   * `late(t)` between the failure of its round t and the moment it catches that error.
   */
  datatype Others = Others(lookup: nat -> seq<Event>, late: nat -> seq<Event>)

  datatype SharedRound<V> = SharedRound(outcome: R.CallOutcome<V, ErrorId>, state: State, calls: nat)

  function RoundAmong<V>(cfg: Config, child: ChildCalls<V>, others: Others, s: State, call: nat,
                         maxRetryCount: int, minBackoffMs: int): (r: SharedRound<V>)
    requires s.providers != []
    ensures |r.state.providers| == |s.providers|
    ensures 1 <= r.calls <= R.CallLimit(maxRetryCount, minBackoffMs, cfg.maxBackoffMs)
    decreases maxRetryCount
  {
    var found := Run(cfg.network, s, others.lookup(call));
    var (outcome, active') := Callback(found.providers, cfg, child, found.active, call);
    var left := found.(active := active');
    if R.Final(outcome) || maxRetryCount <= 1 || minBackoffMs >= cfg.maxBackoffMs then SharedRound(outcome, left, 1)
    else
      var rest := RoundAmong(cfg, child, others, left, call + 1, maxRetryCount - 1, minBackoffMs * 2);
      rest.(calls := rest.calls + 1)
  }

  /** The error of a failed round is caught after what others do in between. */
  function AfterRound<V>(cfg: Config, others: Others, round: SharedRound<V>, attempt: nat): (s: State)
    requires round.state.providers != [] && !R.Final(round.outcome)
    ensures |s.providers| == |round.state.providers|
  {
    EventStep(cfg.network, Run(cfg.network, round.state, others.late(attempt)), Catch(round.outcome.error))
  }

  /** No outcome means that all rounds failed. */
  datatype SharedRun<V> = SharedRun(outcome: Option<R.CallOutcome<V, ErrorId>>, state: State, calls: nat, rounds: nat)

  function PerformAmong<V>(cfg: Config, child: ChildCalls<V>, others: Others, s: State, call: nat, attempt: nat): (r: SharedRun<V>)
    requires s.providers != [] && attempt <= |s.providers|
    ensures r.calls <= Budget(|s.providers| - attempt, R.CallLimit(cfg.maxRetries, cfg.minBackoffMs, cfg.maxBackoffMs))
    ensures r.rounds <= |s.providers| - attempt
    ensures r.outcome.None? ==> r.rounds == |s.providers| - attempt
    decreases |s.providers| - attempt
  {
    if attempt == |s.providers| then SharedRun(None, s, 0, 0)
    else
      var round := RoundAmong(cfg, child, others, s, call, cfg.maxRetries, cfg.minBackoffMs);
      if R.Final(round.outcome) then SharedRun(Some(round.outcome), round.state, round.calls, 1)
      else
        var caught := AfterRound(cfg, others, round, attempt);
        var rest := PerformAmong(cfg, child, others, caught, call + round.calls, attempt + 1);
        rest.(calls := round.calls + rest.calls, rounds := rest.rounds + 1)
  }

  /**
   * Whatever lookups, caught errors, detections and resets come between its steps, one perform call over
   * n providers makes at most n rounds and n times the retry limit of child calls.
   */
  lemma {:induction false} PerformAmongIsBounded<V>(cfg: Config, child: ChildCalls<V>, others: Others, s: State)
    requires s.providers != []
    ensures
      var run := PerformAmong(cfg, child, others, s, 0, 0);
      && run.calls <= |s.providers| * R.CallLimit(cfg.maxRetries, cfg.minBackoffMs, cfg.maxBackoffMs)
      && run.rounds <= |s.providers|
      && (run.outcome.None? ==> run.rounds == |s.providers|)
  {
    BudgetIsProduct(|s.providers|, R.CallLimit(cfg.maxRetries, cfg.minBackoffMs, cfg.maxBackoffMs));
  }

  function Nobody(): Others {
    Others(_ => [], _ => [])
  }

  /** The state after an error is caught with nobody else around. */
  function CaughtAlone(s: State, active: nat, e: ErrorId): State
    requires s.providers != []
  {
    var (active', last') := CatchStep(|s.providers|, active, s.lastPerformError, e);
    State(s.providers, active', last')
  }

  /** With nobody else around, a round among others is the round alone and leads to the same next state. */
  lemma {:induction false} AmongNobodyStep<V>(cfg: Config, child: ChildCalls<V>, s: State,
                                              call: nat, attempt: nat)
    requires attempt < |s.providers|
    ensures
      var round := Round(s.providers, cfg, child, s.active, call, cfg.maxRetries, cfg.minBackoffMs);
      PerformAmong(cfg, child, Nobody(), s, call, attempt) ==
      if R.Final(round.outcome) then SharedRun(Some(round.outcome), s.(active := round.active), round.calls, 1)
      else
        var caught := CaughtAlone(s, round.active, round.outcome.error);
        var rest := PerformAmong(cfg, child, Nobody(), caught, call + round.calls, attempt + 1);
        rest.(calls := round.calls + rest.calls, rounds := rest.rounds + 1)
  {
    RoundAmongNobody(cfg, child, s, call, cfg.maxRetries, cfg.minBackoffMs);
    var round := RoundAmong(cfg, child, Nobody(), s, call, cfg.maxRetries, cfg.minBackoffMs);
    if !R.Final(round.outcome) {
      AfterNobody(cfg, round, attempt);
    }
  }

  lemma {:induction false} AfterNobody<V>(cfg: Config, round: SharedRound<V>, attempt: nat)
    requires round.state.providers != [] && !R.Final(round.outcome)
    ensures
      var s := round.state;
      var (active', last') := CatchStep(|s.providers|, s.active, s.lastPerformError, round.outcome.error);
      AfterRound(cfg, Nobody(), round, attempt) == State(s.providers, active', last')
  {
  }

  lemma {:induction false} RoundAmongNobody<V>(cfg: Config, child: ChildCalls<V>, s: State, call: nat,
                                               maxRetryCount: int, minBackoffMs: int)
    requires s.providers != []
    ensures
      var round := Round(s.providers, cfg, child, s.active, call, maxRetryCount, minBackoffMs);
      RoundAmong(cfg, child, Nobody(), s, call, maxRetryCount, minBackoffMs)
      == SharedRound(round.outcome, s.(active := round.active), round.calls)
    decreases maxRetryCount
  {
    var (outcome, active') := Callback(s.providers, cfg, child, s.active, call);
    if !R.Final(outcome) && maxRetryCount > 1 && minBackoffMs < cfg.maxBackoffMs {
      RoundAmongNobody(cfg, child, s.(active := active'), call + 1, maxRetryCount - 1, minBackoffMs * 2);
    }
  }
}
