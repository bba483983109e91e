/** The fallback provider as an object: its loops and field updates. */
module FallbackService {
  import opened Common
  import opened FallbackModel
  import opened FallbackDetection

  class SimpleFallbackJsonRpcBatchProvider {
    const config: Config
    var fallbackProviders: seq<Provider>
    var activeFallbackProviderIndex: nat
    var detectNetworkFirstRun: bool
    var lastPerformError: Option<ErrorId>
    var lastError: Option<ErrorId>

    function Contents(): State
      reads this
    {
      State(fallbackProviders, activeFallbackProviderIndex, lastPerformError)
    }

    constructor (config: Config, connections: nat)
      requires connections > 0
      ensures this.config == config && Contents() == Initial(connections) && Inv(Contents())
      ensures detectNetworkFirstRun && lastError == None
    {
      this.config := config;
      fallbackProviders := seq(connections, _ => Provider(None, false));
      activeFallbackProviderIndex := 0;
      detectNetworkFirstRun := true;
      lastPerformError, lastError := None, None;
    }

    /** The index of the provider to use; None is the error of reading past the end of the list. */
    method GetActive() returns (r: Option<nat>)
      requires fallbackProviders != []
      modifies this`activeFallbackProviderIndex
      ensures (r, activeFallbackProviderIndex)
              == GetProvider(fallbackProviders, config.network, old(activeFallbackProviderIndex))
      ensures Contents() == EventStep(config.network, old(Contents()), Lookup)
    {
      if activeFallbackProviderIndex > |fallbackProviders| - 1 {
        activeFallbackProviderIndex := 0;
      }
      ghost var k := activeFallbackProviderIndex;
      var fallbackProvider := activeFallbackProviderIndex;
      var attempt := 0;
      while !IsValid(fallbackProviders[fallbackProvider], config.network) && attempt < |fallbackProviders|
        invariant 0 <= fallbackProvider < |fallbackProviders| && attempt <= |fallbackProviders|
        invariant activeFallbackProviderIndex <= |fallbackProviders|
        invariant NextValid(fallbackProviders, config.network, activeFallbackProviderIndex)
                  == NextValid(fallbackProviders, config.network, k)
        invariant IsValid(fallbackProviders[fallbackProvider], config.network) ==>
                    fallbackProvider == activeFallbackProviderIndex
        invariant !IsValid(fallbackProviders[fallbackProvider], config.network) ==>
                    activeFallbackProviderIndex == k + attempt
                    && fallbackProvider == if attempt == 0 then k else k + attempt - 1
        decreases |fallbackProviders| - attempt
      {
        if activeFallbackProviderIndex >= |fallbackProviders| {
          return None;
        }
        fallbackProvider := activeFallbackProviderIndex;
        if !IsValid(fallbackProviders[fallbackProvider], config.network) {
          activeFallbackProviderIndex := activeFallbackProviderIndex + 1;
        }
        attempt := attempt + 1;
      }
      r := Some(fallbackProvider);
    }

    method SwitchToNextProvider()
      requires fallbackProviders != []
      modifies this`activeFallbackProviderIndex
      ensures activeFallbackProviderIndex == NextIndex(|fallbackProviders|, old(activeFallbackProviderIndex))
    {
      if |fallbackProviders| == 1 {
        return;
      }
      activeFallbackProviderIndex := (activeFallbackProviderIndex + 1) % |fallbackProviders|;
    }

    /** One round: the retried callback looks the provider up on every call. */
    method RunRound<V>(child: ChildCalls<V>, call: nat, maxRetryCount: int, minBackoffMs: int)
      returns (outcome: R.CallOutcome<V, ErrorId>, calls: nat)
      requires fallbackProviders != []
      modifies this`activeFallbackProviderIndex
      ensures RoundRun(outcome, activeFallbackProviderIndex, calls)
              == Round(fallbackProviders, config, child, old(activeFallbackProviderIndex), call, maxRetryCount, minBackoffMs)
      decreases maxRetryCount
    {
      var provider := GetActive();
      outcome := if provider.Some? then child(call, provider.value) else R.Failure(OutOfRange(call), false);
      if R.Final(outcome) || maxRetryCount <= 1 || minBackoffMs >= config.maxBackoffMs {
        return outcome, 1;
      }
      outcome, calls := RunRound(child, call + 1, maxRetryCount - 1, minBackoffMs * 2);
      calls := calls + 1;
    }

    /** Round number `attempt` of a perform call: its result, if it ends the call. */
    method PerformRound<V>(child: ChildCalls<V>, call: nat, attempt: nat)
      returns (result: Option<PerformResult<V>>, calls: nat)
      requires attempt < |fallbackProviders|
      modifies this`activeFallbackProviderIndex, this`lastPerformError, this`lastError
      ensures
        var run := Perform(fallbackProviders, config, child, old(activeFallbackProviderIndex),
                           old(lastPerformError), old(lastError), call, attempt);
        match result
        case Some(r) => EndsAs(run, r, activeFallbackProviderIndex, lastPerformError, lastError)
        case None =>
          SameEnd(Perform(fallbackProviders, config, child, activeFallbackProviderIndex,
                          lastPerformError, lastError, call + calls, attempt + 1), run)
    {
      var outcome;
      outcome, calls := RunRound(child, call, config.maxRetries, config.minBackoffMs);
      if outcome.Success? {
        return Some(Done(outcome.value)), calls;
      }
      lastError := Some(outcome.error);
      if outcome.nonRetryable {
        return Some(NonRetryable(outcome.error)), calls;
      }
      if lastPerformError != Some(outcome.error) {
        SwitchToNextProvider();
        lastPerformError := Some(outcome.error);
      }
      result := None;
    }

    /** A perform call that nothing else interleaves with. */
    method PerformAlone<V>(child: ChildCalls<V>) returns (result: PerformResult<V>)
      requires fallbackProviders != []
      modifies this`activeFallbackProviderIndex, this`lastPerformError, this`lastError
      ensures EndsAs(Perform(fallbackProviders, config, child, old(activeFallbackProviderIndex),
                             old(lastPerformError), old(lastError), 0, 0),
                     result, activeFallbackProviderIndex, lastPerformError, lastError)
    {
      ghost var whole := Perform(fallbackProviders, config, child, activeFallbackProviderIndex,
                                 lastPerformError, lastError, 0, 0);
      var attempt, call := 0, 0;
      while attempt < |fallbackProviders|
        invariant attempt <= |fallbackProviders|
        invariant SameEnd(Perform(fallbackProviders, config, child, activeFallbackProviderIndex,
                                  lastPerformError, lastError, call, attempt), whole)
      {
        var ended, calls := PerformRound(child, call, attempt);
        if ended.Some? {
          return ended.value;
        }
        attempt := attempt + 1;
        call := call + calls;
      }
      result := AllFailed(lastError);
    }

    /** Writes the answers of a detection by position, then checks the networks. */
    method DetectNetwork(answers: seq<Answer>) returns (r: Result<Network, DetectError>)
      requires |answers| <= |fallbackProviders|
      modifies this`fallbackProviders, this`detectNetworkFirstRun, this`lastError
      ensures fallbackProviders == Detected(old(fallbackProviders), answers)
      ensures fallbackProviders != [] ==> Contents() == EventStep(config.network, old(Contents()), Detect(answers))
      ensures lastError == LastReason(old(lastError), answers)
      ensures r == DetectionResult(fallbackProviders, config.network, old(detectNetworkFirstRun), lastError)
      ensures r.Ok? ==> !detectNetworkFirstRun
      ensures r.Err? ==> detectNetworkFirstRun == old(detectNetworkFirstRun)
      ensures r.Ok? <==> FirstOnChain(fallbackProviders, config.network).Some?
                         && (old(detectNetworkFirstRun) ==> AllAgree(fallbackProviders, config.network))
    {
      WriteAnswers(answers);
      r := CheckNetworks();
      if r.Ok? {
        detectNetworkFirstRun := false;
      }
    }

    method WriteAnswers(answers: seq<Answer>)
      requires |answers| <= |fallbackProviders|
      modifies this`fallbackProviders, this`lastError
      ensures fallbackProviders == Detected(old(fallbackProviders), answers)
      ensures lastError == LastReason(old(lastError), answers)
    {
      for index := 0 to |answers|
        invariant |fallbackProviders| == |old(fallbackProviders)|
        invariant forall i :: 0 <= i < |fallbackProviders| ==>
                    fallbackProviders[i] == if i < index then WithAnswer(old(fallbackProviders)[i], answers[i])
                                            else old(fallbackProviders)[i]
        invariant lastError == LastReason(old(lastError), answers[..index])
      {
        assert answers[..index + 1][..index] == answers[..index];
        match answers[index]
        case Ok(network) => fallbackProviders := fallbackProviders[index := Provider(Some(network), false)];
        case Err(reason) =>
          fallbackProviders := fallbackProviders[index := Provider(None, true)];
          lastError := Some(reason);
      }
      assert answers[..|answers|] == answers;
    }

    method CheckNetworks() returns (r: Result<Network, DetectError>)
      ensures r == DetectionResult(fallbackProviders, config.network, detectNetworkFirstRun, lastError)
      ensures r.Ok? <==> FirstOnChain(fallbackProviders, config.network).Some?
                         && (detectNetworkFirstRun ==> AllAgree(fallbackProviders, config.network))
    {
      var ps := fallbackProviders;
      NoViolationMeansAgreement(ps, config.network);
      var previousNetwork: Option<Network> := None;
      for index := 0 to |ps|
        invariant previousNetwork == (if NextValid(ps, config.network, 0) < index then FirstOnChain(ps, config.network) else None)
        invariant detectNetworkFirstRun ==>
                    FirstViolation(ps, config.network, index) == FirstViolation(ps, config.network, 0)
      {
        if ps[index].network.None? {
          continue;
        }
        var network := ps[index].network.value;
        if !NetworksChainsEqual(network, config.network) {
          if detectNetworkFirstRun {
            return Err(WrongChain(index));
          }
          continue;
        }
        if previousNetwork.Some? {
          if !NetworksEqual(previousNetwork.value, network) && detectNetworkFirstRun {
            return Err(DifferentNetwork(index));
          }
        } else {
          previousNetwork := Some(network);
        }
      }
      if previousNetwork.None? {
        return Err(AllUnreachable(lastError));
      }
      r := Ok(previousNetwork.value);
    }

    method ResetFallbacks()
      modifies this`fallbackProviders, this`activeFallbackProviderIndex
      ensures fallbackProviders == ResetAll(old(fallbackProviders)) && activeFallbackProviderIndex == 0
      ensures fallbackProviders != [] ==> Contents() == EventStep(config.network, old(Contents()), Reset)
      ensures old(Inv(Contents())) ==>
                Inv(Contents()) && forall i :: 0 <= i < |fallbackProviders| ==> !fallbackProviders[i].unreachable
    {
      for index := 0 to |fallbackProviders|
        invariant |fallbackProviders| == |old(fallbackProviders)|
        invariant forall i :: 0 <= i < |fallbackProviders| ==>
                    fallbackProviders[i] == if i < index then ResetProvider(old(fallbackProviders)[i])
                                            else old(fallbackProviders)[i]
      {
        var p := fallbackProviders[index];
        if p.network.None? || p.network.value.chainId == 0 {
          fallbackProviders := fallbackProviders[index := p.(unreachable := false)];
        }
      }
      activeFallbackProviderIndex := 0;
    }
  }

  /** A configured endpoint: nothing, a text, or a connection record. */
  datatype Url = NoUrl | Text(url: string) | Connection(url: string)

  datatype ConfigError = NoValidUrls

  function UsableUrls(urls: seq<Url>): (usable: seq<Url>)
    ensures forall u :: u in usable <==> u in urls && u != NoUrl && u.url != ""
    ensures forall u :: u in usable ==> multiset(usable)[u] == multiset(urls)[u]
  {
    if urls == [] then []
    else
      assert urls == [urls[0]] + urls[1..];
      (if urls[0] == NoUrl || urls[0].url == "" then [] else [urls[0]]) + UsableUrls(urls[1..])
  }

  /** One child for each usable endpoint; without any there is no provider. */
  method CreateProvider(config: Config, urls: seq<Url>)
    returns (r: Result<SimpleFallbackJsonRpcBatchProvider, ConfigError>)
    ensures r.Ok? <==> exists u :: u in urls && u != NoUrl && u.url != ""
    ensures r.Ok? ==> fresh(r.value) && r.value.config == config && r.value.detectNetworkFirstRun
                      && r.value.Contents() == Initial(|UsableUrls(urls)|)
  {
    var conns := UsableUrls(urls);
    if |conns| < 1 {
      return Err(NoValidUrls);
    }
    assert conns[0] in conns;
    var provider := new SimpleFallbackJsonRpcBatchProvider(config, |conns|);
    r := Ok(provider);
  }

  /** The call ends with this result and leaves this state behind. */
  ghost predicate EndsAs<V>(run: PerformRun<V>, result: PerformResult<V>, active: nat,
                            lastPerformError: Option<ErrorId>, lastError: Option<ErrorId>) {
    && run.result == result
    && run.active == active
    && run.lastPerformError == lastPerformError
    && run.lastError == lastError
  }

  /** The parts of a perform run that the caller sees at its end agree. */
  ghost predicate SameEnd<V>(a: PerformRun<V>, b: PerformRun<V>) {
    EndsAs(a, b.result, b.active, b.lastPerformError, b.lastError)
  }
}
