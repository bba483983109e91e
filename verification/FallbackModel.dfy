/**
 * The fallback provider: which child provider is active, how errors move it on, and what network
 * detection leaves behind.
 */
module FallbackModel {
  import opened Common
  import opened Utils
  import R = Retrier

  // ---------------------------------------------------------------- networks

  datatype Network = Network(name: string, chainId: int, ensAddress: Option<string>)

  /** An undefined or empty string. */
  predicate Falsy(s: Option<string>) {
    s == None || s == Some("")
  }

  predicate NetworksEqual(a: Network, b: Network) {
    && a.name == b.name
    && a.chainId == b.chainId
    && (a.ensAddress == b.ensAddress || (Falsy(a.ensAddress) && Falsy(b.ensAddress)))
  }

  /** A network given in full or by its chain id. */
  datatype Networkish = Full(network: Network) | ChainId(id: int)

  function NetworkChain(n: Networkish): int {
    match n
    case Full(network) => network.chainId
    case ChainId(id) => id
  }

  predicate NetworksChainsEqual(a: Network, b: Networkish) {
    a.chainId == NetworkChain(b)
  }

  // ---------------------------------------------------------------- providers

  datatype Provider = Provider(network: Option<Network>, unreachable: bool)

  predicate IsValid(p: Provider, config: Networkish) {
    p.network.Some? && NetworksChainsEqual(p.network.value, config)
  }

  predicate AllValid(ps: seq<Provider>, config: Networkish) {
    forall i :: 0 <= i < |ps| ==> IsValid(ps[i], config)
  }

  /** The first valid provider at or after k; the number of providers when there is none. */
  function NextValid(ps: seq<Provider>, config: Networkish, k: nat): (j: nat)
    requires k <= |ps|
    ensures k <= j <= |ps|
    ensures j < |ps| ==> IsValid(ps[j], config)
    ensures forall i :: k <= i < j ==> !IsValid(ps[i], config)
    decreases |ps| - k
  {
    if k == |ps| || IsValid(ps[k], config) then k else NextValid(ps, config, k + 1)
  }

  /**
   * The provider to use and the new index.  None stands for the error thrown on reading past the end
   * of the list; without a valid provider a search from the start gives the last one.
   */
  function GetProvider(ps: seq<Provider>, config: Networkish, active: nat): (r: (Option<nat>, nat))
    requires ps != []
    ensures r.1 <= |ps|
    ensures r.0.Some? ==> r.0.value < |ps|
  {
    var k := if active > |ps| - 1 then 0 else active;
    var j := NextValid(ps, config, k);
    if j < |ps| then (Some(j), j)
    else (if k == 0 then Some(|ps| - 1) else None, |ps|)
  }

  /**
   * What a lookup gives: the first valid provider at or after the index, counting from 0 when the index is
   * past the end.  Without one the index ends at n; the lookup then throws, unless it started from 0, where
   * it gives the last provider although that is not valid.
   */
  lemma GetterMeans(ps: seq<Provider>, config: Networkish, active: nat)
    requires ps != []
    ensures
      var k := if active < |ps| then active else 0;
      var (provider, index) := GetProvider(ps, config, active);
      if exists i :: k <= i < |ps| && IsValid(ps[i], config) then
        && k <= index < |ps| && provider == Some(index)
        && IsValid(ps[index], config)
        && (forall i :: k <= i < index ==> !IsValid(ps[i], config))
      else
        index == |ps| && provider == if k == 0 then Some(|ps| - 1) else None
  {
  }

  /** Two calls in a row reach a valid provider whenever there is one. */
  lemma TwoCallsReachValid(ps: seq<Provider>, config: Networkish, active: nat, i: nat)
    requires i < |ps| && IsValid(ps[i], config)
    ensures
      var first := GetProvider(ps, config, active);
      var second := GetProvider(ps, config, first.1);
      && second.0.Some? && IsValid(ps[second.0.value], config)
      && (first.0.Some? ==> IsValid(ps[first.0.value], config) && second == first)
  {
  }

  // ---------------------------------------------------------------- switching on errors

  /**
   * Errors are compared by identity: which object was thrown.  A child provider makes one object for a batch
   * that fails as a whole, and one for each request that fails by itself; OutOfRange is thrown by the
   * provider lookup.
   */
  datatype ErrorId =
    | BatchRejection(provider: nat, batch: nat)
    | OwnRejection(provider: nat, requestId: int)
    | Other(id: int)
    | OutOfRange(call: nat)

  function NextIndex(n: nat, active: nat): nat
    requires n > 0
  {
    if n == 1 then active else (active + 1) % n
  }

  /** Index and last perform error after a retryable error was caught. */
  function CatchStep(n: nat, active: nat, last: Option<ErrorId>, e: ErrorId): (nat, Option<ErrorId>)
    requires n > 0
  {
    if last != Some(e) then (NextIndex(n, active), Some(e)) else (active, last)
  }

  /** How many errors of the list differ from the one just before. */
  function Changes(last: Option<ErrorId>, errors: seq<ErrorId>): nat
    decreases |errors|
  {
    if errors == [] then 0
    else (if last == Some(errors[0]) then 0 else 1) + Changes(Some(errors[0]), errors[1..])
  }

  function LastOf(last: Option<ErrorId>, errors: seq<ErrorId>): Option<ErrorId> {
    if errors == [] then last else Some(errors[|errors| - 1])
  }

  /** An error caught any number of times in a row moves the index at most once. */
  lemma {:induction false} SameErrorSwitchesOnce(last: Option<ErrorId>, errors: seq<ErrorId>, e: ErrorId)
    requires forall i :: 0 <= i < |errors| ==> errors[i] == e
    ensures Changes(last, errors) <= 1
    ensures last == Some(e) ==> Changes(last, errors) == 0
    decreases |errors|
  {
    if errors != [] {
      SameErrorSwitchesOnce(Some(e), errors[1..], e);
    }
  }

  /** The error caught just before number i. */
  function Before(last: Option<ErrorId>, errors: seq<ErrorId>, i: nat): Option<ErrorId>
    requires i < |errors|
  {
    if i == 0 then last else Some(errors[i - 1])
  }

  predicate AllDiffer(last: Option<ErrorId>, errors: seq<ErrorId>) {
    forall i :: 0 <= i < |errors| ==> Before(last, errors, i) != Some(errors[i])
  }

  lemma AllDifferFirst(last: Option<ErrorId>, errors: seq<ErrorId>)
    requires errors != []
    ensures AllDiffer(last, errors) <==> last != Some(errors[0]) && AllDiffer(Some(errors[0]), errors[1..])
  {
    var rest := errors[1..];
    assert forall i :: 0 <= i < |rest| ==>
        Before(Some(errors[0]), rest, i) == Before(last, errors, i + 1) && rest[i] == errors[i + 1];
    if last != Some(errors[0]) && AllDiffer(Some(errors[0]), rest) {
      forall i | 0 <= i < |errors|
        ensures Before(last, errors, i) != Some(errors[i])
      {
        assert i > 0 ==> Before(Some(errors[0]), rest, i - 1) != Some(rest[i - 1]);
      }
    }
    assert AllDiffer(last, errors) ==> Before(last, errors, 0) != Some(errors[0]);
  }

  lemma {:induction false} AllDifferMeansOneEach(last: Option<ErrorId>, errors: seq<ErrorId>)
    ensures Changes(last, errors) <= |errors|
    ensures AllDiffer(last, errors) <==> Changes(last, errors) == |errors|
    decreases |errors|
  {
    if errors != [] {
      AllDifferFirst(last, errors);
      AllDifferMeansOneEach(Some(errors[0]), errors[1..]);
    }
  }

  lemma PrefixChanges(last: Option<ErrorId>, errors: seq<ErrorId>, t: nat)
    requires AllDiffer(last, errors) && t <= |errors|
    ensures Changes(last, errors[..t]) == t
  {
    var prefix := errors[..t];
    assert forall i :: 0 <= i < t ==> Before(last, prefix, i) == Before(last, errors, i);
    AllDifferMeansOneEach(last, prefix);
  }

  /** The errors from the first one on that is not the one caught last before them. */
  function AfterRepeats(last: Option<ErrorId>, errors: seq<ErrorId>): seq<ErrorId>
    decreases |errors|
  {
    if errors != [] && last == Some(errors[0]) then AfterRepeats(last, errors[1..]) else errors
  }

  predicate AllTheSame(errors: seq<ErrorId>) {
    forall i :: 0 <= i < |errors| ==> errors[i] == errors[0]
  }

  /** The exact condition for at most one switch: after the repeats, all errors are one and the same. */
  lemma {:induction false} OneSwitchExactly(last: Option<ErrorId>, errors: seq<ErrorId>)
    ensures Changes(last, errors) <= 1 <==> AllTheSame(AfterRepeats(last, errors))
    decreases |errors|
  {
    if errors != [] {
      if last == Some(errors[0]) {
        OneSwitchExactly(last, errors[1..]);
      } else {
        NoSwitchExactly(errors[0], errors[1..]);
        assert errors == [errors[0]] + errors[1..];
        assert forall i :: 0 < i < |errors| ==> errors[i] == errors[1..][i - 1];
      }
    }
  }

  lemma {:induction false} NoSwitchExactly(e: ErrorId, errors: seq<ErrorId>)
    ensures Changes(Some(e), errors) == 0 <==> forall i :: 0 <= i < |errors| ==> errors[i] == e
    decreases |errors|
  {
    if errors != [] {
      NoSwitchExactly(errors[0], errors[1..]);
      assert forall i :: 0 < i < |errors| ==> errors[i] == errors[1..][i - 1];
    }
  }

  /** The index after d switches. */
  function Rotate(n: nat, active: nat, d: nat): nat
    requires n > 0
    decreases d
  {
    if d == 0 then active else Rotate(n, NextIndex(n, active), d - 1)
  }

  lemma NextIndexInRange(n: nat, active: nat)
    requires active < n
    ensures NextIndex(n, active) == if active + 1 == n then 0 else active + 1
  {
  }

  /** A single provider stays; past the end, where a failed search leaves the index, the next one is the second. */
  lemma NextIndexElsewhere(n: nat, active: nat)
    ensures NextIndex(1, active) == active
    ensures n > 1 ==> NextIndex(n, n) == 1
  {
    if n > 1 {
      ModTurn(1, n);
      ModOf(0, 1, n);
    }
  }

  lemma ModTurn(x: nat, n: nat)
    requires n > 0
    ensures (x + n) % n == x % n
  {
    var q, r := x / n, x % n;
    assert x + n == (q + 1) * n + r;
    ModOf(q + 1, r, n);
  }

  /** Switching is counting modulo the number of providers. */
  lemma {:induction false} RotateIsMod(n: nat, active: nat, d: nat)
    requires active < n
    ensures Rotate(n, active, d) == (active + d) % n
    decreases d
  {
    if d == 0 {
      ModOf(0, active, n);
    } else {
      NextIndexInRange(n, active);
      RotateIsMod(n, NextIndex(n, active), d - 1);
      if active + 1 == n {
        ModTurn(d - 1, n);
      }
    }
  }

  // ---------------------------------------------------------------- one perform call

  datatype Config = Config(network: Networkish, maxRetries: int, minBackoffMs: int, maxBackoffMs: int)

  /** What call number c to child provider j does. */
  type ChildCalls<V> = (nat, nat) -> R.CallOutcome<V, ErrorId>

  /** One retried callback: it looks the provider up, then calls it. */
  function Callback<V>(ps: seq<Provider>, cfg: Config, child: ChildCalls<V>, active: nat, call: nat)
    : (r: (R.CallOutcome<V, ErrorId>, nat))
    requires ps != []
    ensures r.1 <= |ps|
  {
    var (provider, active') := GetProvider(ps, cfg.network, active);
    match provider
    case None => (R.Failure(OutOfRange(call), false), active')
    case Some(j) => (child(call, j), active')
  }

  datatype RoundRun<V> = RoundRun(outcome: R.CallOutcome<V, ErrorId>, active: nat, calls: nat)

  /** The retries of one round; the lookup may move the index in each. */
  function Round<V>(ps: seq<Provider>, cfg: Config, child: ChildCalls<V>, active: nat, call: nat,
                    maxRetryCount: int, minBackoffMs: int): (r: RoundRun<V>)
    requires ps != []
    ensures r.active <= |ps|
    decreases maxRetryCount
  {
    var (outcome, active') := Callback(ps, cfg, child, active, call);
    if R.Final(outcome) || maxRetryCount <= 1 || minBackoffMs >= cfg.maxBackoffMs then RoundRun(outcome, active', 1)
    else
      var rest := Round(ps, cfg, child, active', call + 1, maxRetryCount - 1, minBackoffMs * 2);
      rest.(calls := rest.calls + 1)
  }

  datatype PerformResult<V> = Done(value: V) | NonRetryable(error: ErrorId) | AllFailed(cause: Option<ErrorId>)

  /** The result, the state left behind, and for the record the index of each round and the errors caught. */
  datatype PerformRun<V> = PerformRun(result: PerformResult<V>, active: nat, lastPerformError: Option<ErrorId>,
                                      lastError: Option<ErrorId>, firstCall: nat, calls: nat,
                                      visited: seq<nat>, caught: seq<ErrorId>)

  function Perform<V>(ps: seq<Provider>, cfg: Config, child: ChildCalls<V>, active: nat,
                      lastPerformError: Option<ErrorId>, lastError: Option<ErrorId>, call: nat, attempt: nat): PerformRun<V>
    requires ps != [] && attempt <= |ps|
    decreases |ps| - attempt
  {
    if attempt == |ps| then PerformRun(AllFailed(lastError), active, lastPerformError, lastError, call, 0, [], [])
    else
      var round := Round(ps, cfg, child, active, call, cfg.maxRetries, cfg.minBackoffMs);
      match round.outcome
      case Success(value) =>
        PerformRun(Done(value), round.active, lastPerformError, lastError, call, round.calls, [round.active], [])
      case Failure(e, nonRetryable) =>
        if nonRetryable then
          PerformRun(NonRetryable(e), round.active, lastPerformError, Some(e), call, round.calls, [round.active], [])
        else
          var (active', last') := CatchStep(|ps|, round.active, lastPerformError, e);
          var rest := Perform(ps, cfg, child, active', last', Some(e), call + round.calls, attempt + 1);
          rest.(firstCall := call, calls := round.calls + rest.calls,
                visited := [round.active] + rest.visited, caught := [e] + rest.caught)
  }

  lemma ValidStays(ps: seq<Provider>, config: Networkish, active: nat)
    requires AllValid(ps, config) && active < |ps|
    ensures GetProvider(ps, config, active) == (Some(active), active)
  {
  }

  /** With all providers valid, a round retries the active provider alone. */
  lemma {:induction false} RoundRetriesActive<V>(ps: seq<Provider>, cfg: Config, child: ChildCalls<V>, active: nat,
                                                 call: nat, maxRetryCount: int, minBackoffMs: int)
    requires AllValid(ps, cfg.network) && active < |ps|
    ensures
      var run := R.Retry(c => child(c, active), call, maxRetryCount, minBackoffMs, cfg.maxBackoffMs);
      Round(ps, cfg, child, active, call, maxRetryCount, minBackoffMs) == RoundRun(run.outcome, active, run.calls)
    decreases maxRetryCount
  {
    ValidStays(ps, cfg.network, active);
    var outcome := child(call, active);
    if !R.Final(outcome) && maxRetryCount > 1 && minBackoffMs < cfg.maxBackoffMs {
      RoundRetriesActive(ps, cfg, child, active, call + 1, maxRetryCount - 1, minBackoffMs * 2);
    }
  }

  /** A round never calls more often than the retry limit, whatever the providers are. */
  lemma {:induction false} RoundIsBounded<V>(ps: seq<Provider>, cfg: Config, child: ChildCalls<V>, active: nat,
                                             call: nat, maxRetryCount: int, minBackoffMs: int)
    requires ps != []
    ensures 1 <= Round(ps, cfg, child, active, call, maxRetryCount, minBackoffMs).calls
              <= R.CallLimit(maxRetryCount, minBackoffMs, cfg.maxBackoffMs)
    decreases maxRetryCount
  {
    var (outcome, active') := Callback(ps, cfg, child, active, call);
    if !R.Final(outcome) && maxRetryCount > 1 && minBackoffMs < cfg.maxBackoffMs {
      RoundIsBounded(ps, cfg, child, active', call + 1, maxRetryCount - 1, minBackoffMs * 2);
    }
  }

  /** The index just before lookup number c of a round. */
  function IndexAt(ps: seq<Provider>, config: Networkish, active: nat, c: nat): nat
    requires ps != []
    decreases c
  {
    if c == 0 then active else IndexAt(ps, config, GetProvider(ps, config, active).1, c - 1)
  }

  /** What call number `call` of a round gives when the lookup finds this. */
  function CallOf<V>(child: ChildCalls<V>, found: Option<nat>, call: nat): R.CallOutcome<V, ErrorId> {
    match found
    case Some(j) => child(call, j)
    case None => R.Failure(OutOfRange(call), false)
  }

  /**
   * A round with any providers, valid or not: every call looks the provider up anew, a lookup that throws
   * counts as a retryable failure, and calls go on to the first success or non-retryable error or to the limit.
   */
  lemma {:induction false} RoundLooksUpEachTime<V>(ps: seq<Provider>, cfg: Config, child: ChildCalls<V>, active: nat,
                                                   call: nat, maxRetryCount: int, minBackoffMs: int)
    requires ps != []
    ensures
      var run := Round(ps, cfg, child, active, call, maxRetryCount, minBackoffMs);
      && LooksUpEachTime(run, ps, cfg, child, active, call)
      && (run.outcome.Success? || run.outcome.nonRetryable || run.calls == R.CallLimit(maxRetryCount, minBackoffMs, cfg.maxBackoffMs))
    decreases maxRetryCount
  {
    var (outcome, active') := Callback(ps, cfg, child, active, call);
    assert outcome == CallAt(ps, cfg, child, active, call, 0);
    if !R.Final(outcome) && maxRetryCount > 1 && minBackoffMs < cfg.maxBackoffMs {
      RoundLooksUpEachTime(ps, cfg, child, active', call + 1, maxRetryCount - 1, minBackoffMs * 2);
      var rest := Round(ps, cfg, child, active', call + 1, maxRetryCount - 1, minBackoffMs * 2);
      LooksUpOnceMore(rest, ps, cfg, child, active, call);
    }
  }

  ghost predicate LooksUpEachTime<V>(run: RoundRun<V>, ps: seq<Provider>, cfg: Config, child: ChildCalls<V>, active: nat, call: nat)
    requires ps != []
  {
    && 1 <= run.calls
    && run.active == IndexAt(ps, cfg.network, active, run.calls)
    && run.outcome == CallAt(ps, cfg, child, active, call, run.calls - 1)
    && forall c :: 0 <= c < run.calls - 1 ==> Retryable(CallAt(ps, cfg, child, active, call, c))
  }

  predicate Retryable<V>(outcome: R.CallOutcome<V, ErrorId>) {
    outcome.Failure? && !outcome.nonRetryable
  }

  lemma {:induction false} LooksUpOnceMore<V>(rest: RoundRun<V>, ps: seq<Provider>, cfg: Config, child: ChildCalls<V>,
                                              active: nat, call: nat)
    requires ps != [] && Retryable(Callback(ps, cfg, child, active, call).0)
    requires LooksUpEachTime(rest, ps, cfg, child, Callback(ps, cfg, child, active, call).1, call + 1)
    ensures LooksUpEachTime(rest.(calls := rest.calls + 1), ps, cfg, child, active, call)
  {
    NextCallAt(ps, cfg, child, active, call, rest.calls - 1);
    forall c | 0 <= c < rest.calls
      ensures Retryable(CallAt(ps, cfg, child, active, call, c))
    {
      if c > 0 {
        NextCallAt(ps, cfg, child, active, call, c - 1);
      }
    }
  }

  lemma NextCallAt<V>(ps: seq<Provider>, cfg: Config, child: ChildCalls<V>, active: nat, call: nat, c: nat)
    requires ps != []
    ensures CallAt(ps, cfg, child, active, call, c + 1)
            == CallAt(ps, cfg, child, Callback(ps, cfg, child, active, call).1, call + 1, c)
  {
  }

  /** Call number c of a round, on what its own lookup finds. */
  function CallAt<V>(ps: seq<Provider>, cfg: Config, child: ChildCalls<V>, active: nat, call: nat, c: nat)
    : R.CallOutcome<V, ErrorId>
    requires ps != []
  {
    CallOf(child, GetProvider(ps, cfg.network, IndexAt(ps, cfg.network, active, c)).0, call + c)
  }

  /** What one round adds to a perform call with all providers valid. */
  lemma {:induction false} PerformStep<V>(ps: seq<Provider>, cfg: Config, child: ChildCalls<V>, active: nat,
                                          lastPerformError: Option<ErrorId>, lastError: Option<ErrorId>,
                                          call: nat, attempt: nat)
    returns (outcome: R.CallOutcome<V, ErrorId>, rest: PerformRun<V>)
    requires AllValid(ps, cfg.network) && active < |ps| && attempt < |ps|
    ensures R.Final(outcome) ==>
              var run := Perform(ps, cfg, child, active, lastPerformError, lastError, call, attempt);
              && run.visited == [active] && run.caught == [] && run.active == active
              && run.lastPerformError == lastPerformError && !run.result.AllFailed?
    ensures !R.Final(outcome) ==>
              var (active', last') := CatchStep(|ps|, active, lastPerformError, outcome.error);
              && rest == Perform(ps, cfg, child, active', last', Some(outcome.error), rest.firstCall, attempt + 1)
              && var run := Perform(ps, cfg, child, active, lastPerformError, lastError, call, attempt);
                 && run.visited == [active] + rest.visited && run.caught == [outcome.error] + rest.caught
                 && run.active == rest.active && run.lastPerformError == rest.lastPerformError
                 && run.lastError == rest.lastError && run.result == rest.result
  {
    RoundRetriesActive(ps, cfg, child, active, call, cfg.maxRetries, cfg.minBackoffMs);
    var round := Round(ps, cfg, child, active, call, cfg.maxRetries, cfg.minBackoffMs);
    outcome := round.outcome;
    rest := Perform(ps, cfg, child, active, lastPerformError, lastError, call, attempt);
    if !R.Final(outcome) {
      var (active', last') := CatchStep(|ps|, active, lastPerformError, outcome.error);
      rest := Perform(ps, cfg, child, active', last', Some(outcome.error), call + round.calls, attempt + 1);
    }
  }

  function Budget(rounds: nat, limit: nat): nat {
    if rounds == 0 then 0 else limit + Budget(rounds - 1, limit)
  }

  lemma {:induction false} BudgetIsProduct(rounds: nat, limit: nat)
    ensures Budget(rounds, limit) == rounds * limit
    decreases rounds
  {
    if rounds > 0 {
      BudgetIsProduct(rounds - 1, limit);
      OneMore(rounds - 1, limit);
    }
  }

  lemma {:induction false} PerformWithinBudget<V>(ps: seq<Provider>, cfg: Config, child: ChildCalls<V>, active: nat,
                                                  lastPerformError: Option<ErrorId>, lastError: Option<ErrorId>,
                                                  call: nat, attempt: nat)
    requires ps != [] && attempt <= |ps|
    ensures
      var run := Perform(ps, cfg, child, active, lastPerformError, lastError, call, attempt);
      && run.calls <= Budget(|ps| - attempt, R.CallLimit(cfg.maxRetries, cfg.minBackoffMs, cfg.maxBackoffMs))
      && |run.visited| <= |ps| - attempt
    decreases |ps| - attempt
  {
    if attempt < |ps| {
      var round := Round(ps, cfg, child, active, call, cfg.maxRetries, cfg.minBackoffMs);
      RoundIsBounded(ps, cfg, child, active, call, cfg.maxRetries, cfg.minBackoffMs);
      if !R.Final(round.outcome) {
        var e := round.outcome.error;
        var (active', last') := CatchStep(|ps|, round.active, lastPerformError, e);
        PerformWithinBudget(ps, cfg, child, active', last', Some(e), call + round.calls, attempt + 1);
      }
    }
  }

  /** One perform over n providers makes at most n rounds and n times the retry limit of calls. */
  lemma PerformIsBounded<V>(ps: seq<Provider>, cfg: Config, child: ChildCalls<V>, active: nat,
                            lastPerformError: Option<ErrorId>, lastError: Option<ErrorId>)
    requires ps != []
    ensures
      var run := Perform(ps, cfg, child, active, lastPerformError, lastError, 0, 0);
      && run.calls <= |ps| * R.CallLimit(cfg.maxRetries, cfg.minBackoffMs, cfg.maxBackoffMs)
      && |run.visited| <= |ps|
  {
    PerformWithinBudget(ps, cfg, child, active, lastPerformError, lastError, 0, 0);
    BudgetIsProduct(|ps|, R.CallLimit(cfg.maxRetries, cfg.minBackoffMs, cfg.maxBackoffMs));
  }

  /** Round t runs on the provider that the errors caught before it have switched to. */
  ghost predicate VisitsAre(n: nat, active: nat, last: Option<ErrorId>, visited: seq<nat>, caught: seq<ErrorId>)
    requires n > 0
  {
    && |visited| <= |caught| + 1
    && forall t :: 0 <= t < |visited| ==> visited[t] == Rotate(n, active, Changes(last, caught[..t]))
  }

  /** The rounds of a call, and the index and last error it leaves, follow the errors it caught. */
  ghost predicate FollowsErrors<V>(n: nat, active: nat, last: Option<ErrorId>, run: PerformRun<V>)
    requires n > 0
  {
    && VisitsAre(n, active, last, run.visited, run.caught)
    && run.active == Rotate(n, active, Changes(last, run.caught))
    && run.lastPerformError == LastOf(last, run.caught)
  }

  lemma {:induction false} VisitsFromNext(n: nat, active: nat, last: Option<ErrorId>, e: ErrorId,
                                          visited: seq<nat>, caught: seq<ErrorId>)
    requires n > 0
    requires var (active', last') := CatchStep(n, active, last, e); VisitsAre(n, active', last', visited, caught)
    ensures VisitsAre(n, active, last, [active] + visited, [e] + caught)
  {
    forall t | 0 < t < |visited| + 1
      ensures ([active] + visited)[t] == Rotate(n, active, Changes(last, ([e] + caught)[..t]))
    {
      assert ([e] + caught)[..t] == [e] + caught[..t - 1];
      ChangesFromNext(n, active, last, e, caught[..t - 1]);
    }
  }

  lemma {:induction false} FollowsFromNext<V>(n: nat, active: nat, last: Option<ErrorId>, e: ErrorId,
                                              rest: PerformRun<V>, run: PerformRun<V>)
    requires n > 0
    requires var (active', last') := CatchStep(n, active, last, e); FollowsErrors(n, active', last', rest)
    requires run.visited == [active] + rest.visited && run.caught == [e] + rest.caught
    requires run.active == rest.active && run.lastPerformError == rest.lastPerformError
    ensures FollowsErrors(n, active, last, run)
  {
    ChangesFromNext(n, active, last, e, rest.caught);
    VisitsFromNext(n, active, last, e, rest.visited, rest.caught);
  }

  /**
   * A lone perform with all providers valid: every round runs on the provider that the errors caught so
   * far have switched to, and the index stays where they left it.
   */
  lemma {:induction false} PerformVisits<V>(ps: seq<Provider>, cfg: Config, child: ChildCalls<V>, active: nat,
                                            lastPerformError: Option<ErrorId>, lastError: Option<ErrorId>,
                                            call: nat, attempt: nat)
    requires AllValid(ps, cfg.network) && active < |ps| && attempt <= |ps|
    ensures FollowsErrors(|ps|, active, lastPerformError,
                          Perform(ps, cfg, child, active, lastPerformError, lastError, call, attempt))
    decreases |ps| - attempt
  {
    if attempt < |ps| {
      var outcome, rest := PerformStep(ps, cfg, child, active, lastPerformError, lastError, call, attempt);
      if !R.Final(outcome) {
        var run := Perform(ps, cfg, child, active, lastPerformError, lastError, call, attempt);
        var (active', last') := CatchStep(|ps|, active, lastPerformError, outcome.error);
        NextIndexInRange(|ps|, active);
        PerformVisits(ps, cfg, child, active', last', Some(outcome.error), rest.firstCall, attempt + 1);
        FollowsFromNext(|ps|, active, lastPerformError, outcome.error, rest, run);
      }
    }
  }

  /** Every round but a last successful or non-retryable one catches an error; total failure takes all rounds. */
  ghost predicate EndsAfter<V>(run: PerformRun<V>, rounds: nat, lastError: Option<ErrorId>) {
    && |run.visited| == |run.caught| + (if run.result.AllFailed? then 0 else 1)
    && (run.result.AllFailed? ==> |run.caught| == rounds && run.result.cause == LastOf(lastError, run.caught))
  }

  lemma EndsAfterOneMore<V>(rest: PerformRun<V>, run: PerformRun<V>, rounds: nat, lastError: Option<ErrorId>,
                            active: nat, e: ErrorId)
    requires EndsAfter(rest, rounds, Some(e)) && run.result == rest.result
    requires run.visited == [active] + rest.visited && run.caught == [e] + rest.caught
    ensures EndsAfter(run, rounds + 1, lastError)
  {
  }

  lemma {:induction false} PerformEnds<V>(ps: seq<Provider>, cfg: Config, child: ChildCalls<V>, active: nat,
                                          lastPerformError: Option<ErrorId>, lastError: Option<ErrorId>,
                                          call: nat, attempt: nat)
    requires AllValid(ps, cfg.network) && active < |ps| && attempt <= |ps|
    ensures EndsAfter(Perform(ps, cfg, child, active, lastPerformError, lastError, call, attempt), |ps| - attempt, lastError)
    decreases |ps| - attempt
  {
    if attempt < |ps| {
      var outcome, rest := PerformStep(ps, cfg, child, active, lastPerformError, lastError, call, attempt);
      if !R.Final(outcome) {
        var run := Perform(ps, cfg, child, active, lastPerformError, lastError, call, attempt);
        var (active', last') := CatchStep(|ps|, active, lastPerformError, outcome.error);
        NextIndexInRange(|ps|, active);
        PerformEnds(ps, cfg, child, active', last', Some(outcome.error), rest.firstCall, attempt + 1);
        EndsAfterOneMore(rest, run, |ps| - attempt - 1, lastError, active, outcome.error);
      }
    }
  }

  /** The result and the last error follow from the last child call and the errors caught before. */
  ghost predicate DecidedBy<V>(run: PerformRun<V>, last: R.CallOutcome<V, ErrorId>, lastError: Option<ErrorId>) {
    match last
    case Success(v) => run.result == Done(v) && run.lastError == LastOf(lastError, run.caught)
    case Failure(e, nonRetryable) =>
      && run.result == (if nonRetryable then NonRetryable(e) else AllFailed(Some(e)))
      && run.lastError == Some(e)
  }

  /** With all providers valid, the end of a round is the last of its calls. */
  lemma {:induction false} RoundEndsWithLastCall<V>(ps: seq<Provider>, cfg: Config, child: ChildCalls<V>, active: nat, call: nat)
    requires AllValid(ps, cfg.network) && active < |ps|
    ensures
      var round := Round(ps, cfg, child, active, call, cfg.maxRetries, cfg.minBackoffMs);
      round.active == active && round.calls >= 1 && round.outcome == child(call + round.calls - 1, active)
  {
    RoundRetriesActive(ps, cfg, child, active, call, cfg.maxRetries, cfg.minBackoffMs);
    R.StopsAtFirstFinal(c => child(c, active), call, cfg.maxRetries, cfg.minBackoffMs, cfg.maxBackoffMs);
  }

  /** A perform call split into its first round, of k calls, and the rest. */
  lemma {:induction false} FirstRound<V>(ps: seq<Provider>, cfg: Config, child: ChildCalls<V>, active: nat,
                                         lastPerformError: Option<ErrorId>, lastError: Option<ErrorId>,
                                         call: nat, attempt: nat) returns (k: nat, rest: PerformRun<V>)
    requires AllValid(ps, cfg.network) && active < |ps| && attempt < |ps|
    ensures k >= 1
    ensures R.Final(child(call + k - 1, active)) ==>
              var run := Perform(ps, cfg, child, active, lastPerformError, lastError, call, attempt);
              && run.calls == k && run.visited == [active] && run.caught == []
              && DecidedBy(run, child(call + k - 1, active), lastError)
    ensures !R.Final(child(call + k - 1, active)) ==>
              var e := child(call + k - 1, active).error;
              var (active', last') := CatchStep(|ps|, active, lastPerformError, e);
              && rest == Perform(ps, cfg, child, active', last', Some(e), call + k, attempt + 1)
              && var run := Perform(ps, cfg, child, active, lastPerformError, lastError, call, attempt);
                 && run.calls == k + rest.calls
                 && run.visited == [active] + rest.visited && run.caught == [e] + rest.caught
                 && run.result == rest.result && run.lastError == rest.lastError
                 && (attempt + 1 == |ps| ==> rest.calls == 0 && rest.visited == [] && rest.result == AllFailed(Some(e))
                                             && rest.lastError == Some(e))
  {
    RoundEndsWithLastCall(ps, cfg, child, active, call);
    var round := Round(ps, cfg, child, active, call, cfg.maxRetries, cfg.minBackoffMs);
    k := round.calls;
    rest := Perform(ps, cfg, child, active, lastPerformError, lastError, call, attempt);
    if !R.Final(round.outcome) {
      var (active', last') := CatchStep(|ps|, active, lastPerformError, round.outcome.error);
      rest := Perform(ps, cfg, child, active', last', Some(round.outcome.error), call + k, attempt + 1);
    }
  }

  ghost predicate EndsWithLastCall<V>(run: PerformRun<V>, child: ChildCalls<V>, call: nat, lastError: Option<ErrorId>) {
    && run.calls >= 1 && run.visited != []
    && DecidedBy(run, child(call + run.calls - 1, run.visited[|run.visited| - 1]), lastError)
  }

  lemma {:induction false} EndsOneRoundLater<V>(rest: PerformRun<V>, run: PerformRun<V>, child: ChildCalls<V>,
                                                call: nat, k: nat, active: nat, e: ErrorId, lastError: Option<ErrorId>)
    requires EndsWithLastCall(rest, child, call + k, Some(e))
    requires run.calls == k + rest.calls && run.visited == [active] + rest.visited && run.caught == [e] + rest.caught
    requires run.result == rest.result && run.lastError == rest.lastError
    ensures EndsWithLastCall(run, child, call, lastError)
  {
    assert run.visited[|run.visited| - 1] == rest.visited[|rest.visited| - 1];
  }

  lemma {:induction false} EndsInLastRound<V>(rest: PerformRun<V>, run: PerformRun<V>, child: ChildCalls<V>,
                                              call: nat, k: nat, active: nat, e: ErrorId, lastError: Option<ErrorId>)
    requires k >= 1 && child(call + k - 1, active) == R.Failure(e, false)
    requires rest.calls == 0 && rest.visited == [] && rest.result == AllFailed(Some(e)) && rest.lastError == Some(e)
    requires run.calls == k + rest.calls && run.visited == [active] + rest.visited
    requires run.result == rest.result && run.lastError == rest.lastError
    ensures EndsWithLastCall(run, child, call, lastError)
  {
  }

  /**
   * What a perform call is for, with all providers valid: it gives what the last child call gave, number
   * calls - 1 on the last provider visited.
   */
  lemma {:induction false} LastCallDecides<V>(ps: seq<Provider>, cfg: Config, child: ChildCalls<V>, active: nat,
                                              lastPerformError: Option<ErrorId>, lastError: Option<ErrorId>,
                                              call: nat, attempt: nat)
    requires AllValid(ps, cfg.network) && active < |ps| && attempt < |ps|
    ensures EndsWithLastCall(Perform(ps, cfg, child, active, lastPerformError, lastError, call, attempt), child, call, lastError)
    decreases |ps| - attempt
  {
    var k, rest := FirstRound(ps, cfg, child, active, lastPerformError, lastError, call, attempt);
    var run := Perform(ps, cfg, child, active, lastPerformError, lastError, call, attempt);
    var outcome := child(call + k - 1, active);
    if R.Final(outcome) {
    } else if attempt + 1 == |ps| {
      EndsInLastRound(rest, run, child, call, k, active, outcome.error, lastError);
    } else {
      var (active', last') := CatchStep(|ps|, active, lastPerformError, outcome.error);
      NextIndexInRange(|ps|, active);
      LastCallDecides(ps, cfg, child, active', last', Some(outcome.error), call + k, attempt + 1);
      EndsOneRoundLater(rest, run, child, call, k, active, outcome.error, lastError);
    }
  }

  /** Some call from this number on, to provider j, failed with this retryable error. */
  ghost predicate Threw<V>(child: ChildCalls<V>, from: nat, to: nat, j: nat, e: ErrorId) {
    exists c: nat :: from <= c < to && child(c, j) == R.Failure(e, false)
  }

  /** Every error caught was thrown by the provider of its round, in one of the calls of the perform call. */
  ghost predicate CaughtThrown<V>(run: PerformRun<V>, child: ChildCalls<V>, call: nat) {
    && |run.caught| <= |run.visited|
    && forall t :: 0 <= t < |run.caught| ==> Threw(child, call, call + run.calls, run.visited[t], run.caught[t])
  }

  lemma {:induction false} CaughtOneRoundLater<V>(rest: PerformRun<V>, run: PerformRun<V>, child: ChildCalls<V>,
                                                  call: nat, k: nat, active: nat, e: ErrorId)
    requires CaughtThrown(rest, child, call + k) && k >= 1 && child(call + k - 1, active) == R.Failure(e, false)
    requires run.calls == k + rest.calls && run.visited == [active] + rest.visited && run.caught == [e] + rest.caught
    ensures CaughtThrown(run, child, call)
  {
    forall t | 0 <= t < |run.caught|
      ensures Threw(child, call, call + run.calls, run.visited[t], run.caught[t])
    {
      if t > 0 {
        assert Threw(child, call + k, call + k + rest.calls, rest.visited[t - 1], rest.caught[t - 1]);
      }
    }
  }

  lemma {:induction false} CaughtWasThrown<V>(ps: seq<Provider>, cfg: Config, child: ChildCalls<V>, active: nat,
                                              lastPerformError: Option<ErrorId>, lastError: Option<ErrorId>,
                                              call: nat, attempt: nat)
    requires AllValid(ps, cfg.network) && active < |ps| && attempt <= |ps|
    ensures CaughtThrown(Perform(ps, cfg, child, active, lastPerformError, lastError, call, attempt), child, call)
    decreases |ps| - attempt
  {
    if attempt < |ps| {
      var k, rest := FirstRound(ps, cfg, child, active, lastPerformError, lastError, call, attempt);
      var run := Perform(ps, cfg, child, active, lastPerformError, lastError, call, attempt);
      var outcome := child(call + k - 1, active);
      if !R.Final(outcome) {
        var (active', last') := CatchStep(|ps|, active, lastPerformError, outcome.error);
        NextIndexInRange(|ps|, active);
        CaughtWasThrown(ps, cfg, child, active', last', Some(outcome.error), call + k, attempt + 1);
        CaughtOneRoundLater(rest, run, child, call, k, active, outcome.error);
      }
    }
  }

  /** Counting the switches from the state after the first error is counting them from before it. */
  lemma {:induction false} ChangesFromNext(n: nat, active: nat, last: Option<ErrorId>, e: ErrorId, rest: seq<ErrorId>)
    requires n > 0
    ensures
      var (active', last') := CatchStep(n, active, last, e);
      && Rotate(n, active', Changes(last', rest)) == Rotate(n, active, Changes(last, [e] + rest))
      && LastOf(last', rest) == LastOf(last, [e] + rest)
  {
    assert ([e] + rest)[1..] == rest;
  }

  /**
   * With every caught error unlike the one before, a lone perform tries providers a, a + 1, ... modulo
   * n, each at most once; total failure brings the index back to a.
   */
  lemma {:induction false} LonePerformRotates<V>(ps: seq<Provider>, cfg: Config, child: ChildCalls<V>, active: nat,
                                                 lastPerformError: Option<ErrorId>, lastError: Option<ErrorId>)
    requires AllValid(ps, cfg.network) && active < |ps|
    requires AllDiffer(lastPerformError, Perform(ps, cfg, child, active, lastPerformError, lastError, 0, 0).caught)
    ensures
      var run := Perform(ps, cfg, child, active, lastPerformError, lastError, 0, 0);
      && (forall t :: 0 <= t < |run.visited| ==> run.visited[t] == (active + t) % |ps|)
      && (forall t, u :: 0 <= t < u < |run.visited| ==> run.visited[t] != run.visited[u])
      && (run.result.AllFailed? ==> |run.visited| == |ps| && run.active == active)
      && (!run.result.AllFailed? ==> run.visited != [] && run.active == run.visited[|run.visited| - 1])
  {
    var run := Perform(ps, cfg, child, active, lastPerformError, lastError, 0, 0);
    PerformVisits(ps, cfg, child, active, lastPerformError, lastError, 0, 0);
    PerformEnds(ps, cfg, child, active, lastPerformError, lastError, 0, 0);
    PerformIsBounded(ps, cfg, child, active, lastPerformError, lastError);
    VisitsRotate(|ps|, active, lastPerformError, run.visited, run.caught);
  }

  /** The indices active, active + 1, ... modulo n. */
  predicate GoesRound(visited: seq<nat>, active: nat, n: nat)
    requires n > 0
  {
    forall t :: 0 <= t < |visited| ==> visited[t] == (active + t) % n
  }

  /**
   * The exact condition for the rotation: round t runs on provider (a + t) modulo n, for every t, if and only
   * if every error caught before the last round differs from the one before it.
   */
  lemma {:induction false} LonePerformRotatesExactly<V>(ps: seq<Provider>, cfg: Config, child: ChildCalls<V>, active: nat,
                                                        lastPerformError: Option<ErrorId>, lastError: Option<ErrorId>)
    requires AllValid(ps, cfg.network) && active < |ps|
    ensures
      var run := Perform(ps, cfg, child, active, lastPerformError, lastError, 0, 0);
      && 1 <= |run.visited| <= |run.caught| + 1
      && (GoesRound(run.visited, active, |ps|) <==> AllDiffer(lastPerformError, run.caught[..|run.visited| - 1]))
  {
    var run := Perform(ps, cfg, child, active, lastPerformError, lastError, 0, 0);
    PerformVisits(ps, cfg, child, active, lastPerformError, lastError, 0, 0);
    PerformEnds(ps, cfg, child, active, lastPerformError, lastError, 0, 0);
    PerformIsBounded(ps, cfg, child, active, lastPerformError, lastError);
    VisitsRotateExactly(|ps|, active, lastPerformError, run.visited, run.caught);
  }

  lemma {:induction false} VisitsRotateExactly(n: nat, active: nat, last: Option<ErrorId>, visited: seq<nat>, caught: seq<ErrorId>)
    requires active < n && 1 <= |visited| <= n && VisitsAre(n, active, last, visited, caught)
    ensures GoesRound(visited, active, n) <==> AllDiffer(last, caught[..|visited| - 1])
  {
    if AllDiffer(last, caught[..|visited| - 1]) {
      forall t | 0 <= t < |visited|
        ensures visited[t] == (active + t) % n
      {
        DifferentErrorsRotate(n, active, last, caught[..|visited| - 1], t);
        assert caught[..|visited| - 1][..t] == caught[..t];
      }
    }
    if visited[|visited| - 1] == (active + |visited| - 1) % n {
      RotationMeansDifferent(n, active, last, caught[..|visited| - 1]);
    }
  }

  lemma {:induction false} DifferentErrorsRotate(n: nat, active: nat, last: Option<ErrorId>, errors: seq<ErrorId>, t: nat)
    requires active < n && t <= |errors| && AllDiffer(last, errors)
    ensures Rotate(n, active, Changes(last, errors[..t])) == (active + t) % n
  {
    PrefixChanges(last, errors, t);
    RotateIsMod(n, active, t);
  }

  lemma {:induction false} RotationMeansDifferent(n: nat, active: nat, last: Option<ErrorId>, errors: seq<ErrorId>)
    requires active < n && |errors| < n
    requires Rotate(n, active, Changes(last, errors)) == (active + |errors|) % n
    ensures AllDiffer(last, errors)
  {
    AllDifferMeansOneEach(last, errors);
    RotateIsMod(n, active, Changes(last, errors));
    SameTurn(active, Changes(last, errors), |errors|, n);
  }

  /** Two turns of less than a full circle that end in one place are the same. */
  lemma SameTurn(a: nat, c: nat, d: nat, n: nat)
    requires a < n && c < n && d < n && (a + c) % n == (a + d) % n
    ensures c == d
  {
    TurnIs(a, c, n);
    TurnIs(a, d, n);
  }

  lemma TurnIs(a: nat, c: nat, n: nat)
    requires a < n && c < n
    ensures (a + c) % n == if a + c < n then a + c else a + c - n
  {
    if a + c < n {
      ModOf(0, a + c, n);
    } else {
      ModTurn(a + c - n, n);
      ModOf(0, a + c - n, n);
    }
  }

  /** Visits in plain numbers when every caught error differs from the one before. */
  lemma {:induction false} VisitsRotate(n: nat, active: nat, last: Option<ErrorId>, visited: seq<nat>, caught: seq<ErrorId>)
    requires active < n && |visited| <= n
    requires VisitsAre(n, active, last, visited, caught) && AllDiffer(last, caught)
    ensures forall t :: 0 <= t < |visited| ==> visited[t] == (active + t) % n
    ensures forall t, u :: 0 <= t < u < |visited| ==> visited[t] != visited[u]
    ensures |visited| == |caught| == n ==> Rotate(n, active, Changes(last, caught)) == active
    ensures |visited| == |caught| + 1 ==> Rotate(n, active, Changes(last, caught)) == visited[|visited| - 1]
  {
    forall t | 0 <= t < |visited|
      ensures visited[t] == (active + t) % n
    {
      PrefixChanges(last, caught, t);
      RotateIsMod(n, active, t);
    }
    AllDifferent(n, active, visited);
    PrefixChanges(last, caught, |caught|);
    assert caught[..|caught|] == caught;
    if |visited| == |caught| == n {
      RotateIsMod(n, active, n);
      ModTurn(active, n);
      ModOf(0, active, n);
    }
  }

  lemma {:induction false} AllDifferent(n: nat, a: nat, visited: seq<nat>)
    requires a < n && |visited| <= n
    requires forall t :: 0 <= t < |visited| ==> visited[t] == (a + t) % n
    ensures forall t, u :: 0 <= t < u < |visited| ==> visited[t] != visited[u]
  {
    forall t | 0 <= t < |visited|
      ensures visited[t] == if a + t < n then a + t else a + t - n
    {
      TurnIs(a, t, n);
    }
  }
}
