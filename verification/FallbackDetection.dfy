/** Network detection: which answer goes to which provider, and what success means. */
module FallbackDetection {
  import opened Common
  import opened FallbackModel

  type Answer = Result<Network, ErrorId>

  /** The indices of the providers that are asked: those not flagged unreachable. */
  function Asked(ps: seq<Provider>): (asked: seq<nat>)
    ensures |asked| <= |ps|
    ensures forall j :: 0 <= j < |asked| ==> asked[j] < |ps| && !ps[asked[j]].unreachable
    ensures forall i :: 0 <= i < |ps| && !ps[i].unreachable ==> i in asked
    ensures forall j, k :: 0 <= j < k < |asked| ==> asked[j] < asked[k]
  {
    if ps == [] then []
    else
      var n := |ps| - 1;
      if ps[n].unreachable then Asked(ps[..n]) else Asked(ps[..n]) + [n]
  }

  function WithAnswer(p: Provider, answer: Answer): Provider {
    match answer
    case Ok(network) => Provider(Some(network), false)
    case Err(_) => Provider(None, true)
  }

  /** Answer j is written to provider j, whichever provider it came from. */
  function Detected(ps: seq<Provider>, answers: seq<Answer>): (r: seq<Provider>)
    requires |answers| <= |ps|
    ensures |r| == |ps|
  {
    seq(|ps|, i requires 0 <= i < |ps| => if i < |answers| then WithAnswer(ps[i], answers[i]) else ps[i])
  }

  /** The last error after the answers: that of the last one that is an error. */
  function LastReason(last: Option<ErrorId>, answers: seq<Answer>): Option<ErrorId> {
    if answers == [] then last
    else
      match answers[|answers| - 1]
      case Ok(_) => LastReason(last, answers[..|answers| - 1])
      case Err(reason) => Some(reason)
  }

  /** What one answer does to the provider at its position; providers past the answers stay. */
  lemma DetectedMeans(ps: seq<Provider>, answers: seq<Answer>, i: nat)
    requires |answers| <= |ps| && i < |ps|
    ensures
      var after := Detected(ps, answers)[i];
      && (i < |answers| && answers[i].Ok? ==> after.network == Some(answers[i].value) && !after.unreachable)
      && (i < |answers| && answers[i].Err? ==> after.network == None && after.unreachable)
      && (i >= |answers| ==> after == ps[i])
  {
  }

  /** The last error is that of the last answer that is one, and stays when none is. */
  lemma {:induction false} LastReasonMeans(last: Option<ErrorId>, answers: seq<Answer>)
    ensures (forall i :: 0 <= i < |answers| ==> answers[i].Ok?) ==> LastReason(last, answers) == last
    ensures forall i :: 0 <= i < |answers| && answers[i].Err? && (forall j :: i < j < |answers| ==> answers[j].Ok?) ==>
              LastReason(last, answers) == Some(answers[i].error)
    decreases |answers|
  {
    if answers != [] {
      var before := answers[..|answers| - 1];
      LastReasonMeans(last, before);
      assert forall i :: 0 <= i < |before| ==> before[i] == answers[i];
    }
  }

  // ---------------------------------------------------------------- attribution

  /** The answers of the asked providers, when provider i answers net(i). */
  function AnswersOf(ps: seq<Provider>, net: nat -> Answer): (answers: seq<Answer>)
    ensures |answers| == |Asked(ps)|
  {
    seq(|Asked(ps)|, j requires 0 <= j < |Asked(ps)| => net(Asked(ps)[j]))
  }

  /** Every asked provider ends with its own answer, every other one as it was. */
  predicate WellAttributed(ps: seq<Provider>, after: seq<Provider>, net: nat -> Answer)
    requires |after| == |ps|
  {
    forall i :: 0 <= i < |ps| ==> after[i] == if ps[i].unreachable then ps[i] else WithAnswer(ps[i], net(i))
  }

  /** No flagged provider comes before one that is not flagged. */
  predicate FlaggedLast(ps: seq<Provider>) {
    forall i, j :: 0 <= i < j < |ps| && ps[i].unreachable ==> ps[j].unreachable
  }

  lemma {:induction false} AskedIsPrefix(ps: seq<Provider>)
    requires FlaggedLast(ps)
    ensures forall j :: 0 <= j < |Asked(ps)| ==> Asked(ps)[j] == j
    ensures forall i :: 0 <= i < |ps| ==> (i < |Asked(ps)| <==> !ps[i].unreachable)
    decreases |ps|
  {
    if ps != [] {
      AskedIsPrefix(ps[..|ps| - 1]);
    }
  }

  /** Without a flagged provider before an unflagged one, detection attributes every answer rightly. */
  lemma {:induction false} FlaggedLastAttributes(ps: seq<Provider>, net: nat -> Answer)
    requires FlaggedLast(ps)
    ensures WellAttributed(ps, Detected(ps, AnswersOf(ps, net)), net)
  {
    AskedIsPrefix(ps);
  }

  /** Everyone answers, and nobody does. */
  function AllReachable(): nat -> Answer {
    i => Ok(Network("", i, None))
  }

  function NoneReachable(): nat -> Answer {
    i => Err(Other(i))
  }

  /** A flagged provider before an unflagged one spoils the case where all answer or that where none does. */
  lemma {:induction false} FlaggedFirstMisattributes(ps: seq<Provider>, i: nat, j: nat)
    requires i < j < |ps| && ps[i].unreachable && !ps[j].unreachable
    ensures !WellAttributed(ps, Detected(ps, AnswersOf(ps, AllReachable())), AllReachable())
            || !WellAttributed(ps, Detected(ps, AnswersOf(ps, NoneReachable())), NoneReachable())
  {
    var up, down := Detected(ps, AnswersOf(ps, AllReachable())), Detected(ps, AnswersOf(ps, NoneReachable()));
    if i < |Asked(ps)| {
      assert !up[i].unreachable;
    } else {
      assert down[j] == ps[j];
    }
  }

  /**
   * The exact condition for right attribution: no flagged provider comes before an unflagged one.  By
   * FlaggedLastAttributes the "if" half holds for all answers.
   */
  lemma {:induction false} AttributesExactly(ps: seq<Provider>)
    ensures
      && WellAttributed(ps, Detected(ps, AnswersOf(ps, AllReachable())), AllReachable())
      && WellAttributed(ps, Detected(ps, AnswersOf(ps, NoneReachable())), NoneReachable())
      <==> FlaggedLast(ps)
  {
    if FlaggedLast(ps) {
      FlaggedLastAttributes(ps, AllReachable());
      FlaggedLastAttributes(ps, NoneReachable());
    } else {
      var i, j :| 0 <= i < j < |ps| && ps[i].unreachable && !ps[j].unreachable;
      FlaggedFirstMisattributes(ps, i, j);
    }
  }

  // ---------------------------------------------------------------- the check of the networks

  datatype DetectError = WrongChain(index: nat) | DifferentNetwork(index: nat) | AllUnreachable(cause: Option<ErrorId>)

  /** The first network on the configured chain. */
  function FirstOnChain(ps: seq<Provider>, config: Networkish): Option<Network> {
    var j := NextValid(ps, config, 0);
    if j < |ps| then ps[j].network else None
  }

  /** What the first run demands of the networks found. */
  predicate AllAgree(ps: seq<Provider>, config: Networkish) {
    forall i :: 0 <= i < |ps| && ps[i].network.Some? ==>
      && NetworksChainsEqual(ps[i].network.value, config)
      && FirstOnChain(ps, config).Some?
      && NetworksEqual(FirstOnChain(ps, config).value, ps[i].network.value)
  }

  /** What the first run has against provider i. */
  function Violation(ps: seq<Provider>, config: Networkish, i: nat): Option<DetectError>
    requires i < |ps|
  {
    var first := FirstOnChain(ps, config);
    match ps[i].network
    case None => None
    case Some(network) =>
      if !NetworksChainsEqual(network, config) then Some(WrongChain(i))
      else if first.Some? && !NetworksEqual(first.value, network) then Some(DifferentNetwork(i))
      else None
  }

  function FirstViolation(ps: seq<Provider>, config: Networkish, from: nat): (v: Option<DetectError>)
    requires from <= |ps|
    ensures v.None? <==> forall i :: from <= i < |ps| ==> Violation(ps, config, i).None?
    decreases |ps| - from
  {
    if from == |ps| then None
    else if Violation(ps, config, from).Some? then Violation(ps, config, from)
    else FirstViolation(ps, config, from + 1)
  }

  /** The network found, or why there is none. */
  function DetectionResult(ps: seq<Provider>, config: Networkish, firstRun: bool, lastError: Option<ErrorId>)
    : Result<Network, DetectError>
  {
    var violation, first := FirstViolation(ps, config, 0), FirstOnChain(ps, config);
    if firstRun && violation.Some? then Err(violation.value)
    else if first.None? then Err(AllUnreachable(lastError))
    else Ok(first.value)
  }

  /** Nothing is found against any provider exactly when all networks found agree. */
  lemma {:induction false} NoViolationMeansAgreement(ps: seq<Provider>, config: Networkish)
    ensures FirstViolation(ps, config, 0).None? <==> AllAgree(ps, config)
  {
    forall i | 0 <= i < |ps|
      ensures Violation(ps, config, i).None? <==>
              (ps[i].network.Some? ==>
                 && NetworksChainsEqual(ps[i].network.value, config)
                 && FirstOnChain(ps, config).Some?
                 && NetworksEqual(FirstOnChain(ps, config).value, ps[i].network.value))
    {
    }
  }

  /** Missing and empty ENS addresses are the same. */
  predicate NoEns(n: Network) {
    n.ensAddress == None || n.ensAddress == Some("")
  }

  /** Exactly which differences count: the name, the chain id, or the ENS address unless both have none. */
  lemma NetworksDiffer(a: Network, b: Network)
    ensures !NetworksEqual(a, b) <==>
            a.name != b.name || a.chainId != b.chainId || (a.ensAddress != b.ensAddress && !(NoEns(a) && NoEns(b)))
  {
  }

  /** A network is on the configured chain when the chain ids are the same, however the configuration names it. */
  lemma OnConfiguredChain(a: Network, full: Network, id: int)
    ensures NetworksChainsEqual(a, Full(full)) <==> a.chainId == full.chainId
    ensures NetworksChainsEqual(a, ChainId(id)) <==> a.chainId == id
  {
  }

  lemma ValidMeans(p: Provider, config: Networkish)
    ensures IsValid(p, config) <==> p.network.Some? && NetworksChainsEqual(p.network.value, config)
  {
  }

  lemma NetworksEqualIsEquivalence(a: Network, b: Network, c: Network)
    ensures NetworksEqual(a, a)
    ensures NetworksEqual(a, b) ==> NetworksEqual(b, a)
    ensures NetworksEqual(a, b) && NetworksEqual(b, c) ==> NetworksEqual(a, c)
  {
  }

  /** Networks that all equal the first one equal each other. */
  lemma AgreeingNetworksArePairwiseEqual(ps: seq<Provider>, config: Networkish, i: nat, j: nat)
    requires AllAgree(ps, config) && i < |ps| && j < |ps| && ps[i].network.Some? && ps[j].network.Some?
    ensures NetworksEqual(ps[i].network.value, ps[j].network.value)
    ensures NetworksChainsEqual(ps[i].network.value, config)
  {
    var first := FirstOnChain(ps, config).value;
    NetworksEqualIsEquivalence(first, ps[i].network.value, ps[j].network.value);
    NetworksEqualIsEquivalence(ps[i].network.value, first, ps[j].network.value);
  }

  /** The network of this provider is on the configured chain. */
  predicate OnChain(ps: seq<Provider>, config: Networkish, i: nat)
    requires i < |ps|
  {
    ps[i].network.Some? && NetworksChainsEqual(ps[i].network.value, config)
  }

  lemma {:induction false} FirstViolationIsFirst(ps: seq<Provider>, config: Networkish, from: nat) returns (i: nat)
    requires from <= |ps| && FirstViolation(ps, config, from).Some?
    ensures from <= i < |ps| && Violation(ps, config, i) == FirstViolation(ps, config, from)
    ensures forall j :: from <= j < i ==> Violation(ps, config, j).None?
    decreases |ps| - from
  {
    if Violation(ps, config, from).Some? {
      i := from;
    } else {
      i := FirstViolationIsFirst(ps, config, from + 1);
    }
  }

  /**
   * What a detection returns.  A network: that of the first provider on the configured chain, as that
   * provider reported it.  Total failure: no provider is on the chain.  A first run reports the first
   * provider that is on another chain, or on the chain with another network than the first one there.
   */
  lemma {:induction false} DetectionMeans(ps: seq<Provider>, config: Networkish, firstRun: bool, lastError: Option<ErrorId>)
    ensures
      match DetectionResult(ps, config, firstRun, lastError)
      case Ok(network) =>
        exists i :: && 0 <= i < |ps| && OnChain(ps, config, i) && ps[i].network == Some(network)
                    && forall j :: 0 <= j < i ==> !OnChain(ps, config, j)
      case Err(AllUnreachable(cause)) =>
        cause == lastError && forall i :: 0 <= i < |ps| ==> !OnChain(ps, config, i)
      case Err(WrongChain(i)) =>
        && firstRun && i < |ps| && ps[i].network.Some? && !OnChain(ps, config, i)
        && forall j :: 0 <= j < i ==> ps[j].network.None? || OnChain(ps, config, j)
      case Err(DifferentNetwork(i)) =>
        && firstRun && i < |ps| && OnChain(ps, config, i)
        && (exists j :: 0 <= j < i && OnChain(ps, config, j) && !NetworksEqual(ps[j].network.value, ps[i].network.value))
        && forall j :: 0 <= j < i ==> ps[j].network.None? || OnChain(ps, config, j)
  {
    assert forall i :: 0 <= i < |ps| ==> (OnChain(ps, config, i) <==> IsValid(ps[i], config));
    var first := NextValid(ps, config, 0);
    if firstRun && FirstViolation(ps, config, 0).Some? {
      var i := FirstViolationIsFirst(ps, config, 0);
      assert forall j :: 0 <= j < i ==> Violation(ps, config, j).None?;
      forall j | 0 <= j < i
        ensures ps[j].network.None? || OnChain(ps, config, j)
      {
        assert Violation(ps, config, j).None?;
      }
      if OnChain(ps, config, i) {
        assert first < |ps| && OnChain(ps, config, first);
        NetworksEqualIsEquivalence(ps[i].network.value, ps[i].network.value, ps[i].network.value);
        assert first != i;
      }
    } else if first < |ps| {
      assert OnChain(ps, config, first);
    }
  }

  // ---------------------------------------------------------------- the provider as a state machine

  /** Without `config` and the children, the state of the fallback provider. */
  datatype State = State(providers: seq<Provider>, active: nat, lastPerformError: Option<ErrorId>)

  /** What may happen in any order: lookups and caught errors of any perform call, detections, resets. */
  datatype Event = Lookup | Catch(e: ErrorId) | Detect(answers: seq<Answer>) | Reset

  function ResetProvider(p: Provider): Provider {
    if p.network.None? || p.network.value.chainId == 0 then p.(unreachable := false) else p
  }

  function ResetAll(ps: seq<Provider>): (r: seq<Provider>)
    ensures |r| == |ps|
  {
    seq(|ps|, i requires 0 <= i < |ps| => ResetProvider(ps[i]))
  }

  /** A reset keeps every network and clears the flag of every provider without one (or with chain id 0). */
  lemma ResetMeans(ps: seq<Provider>, i: nat)
    requires i < |ps|
    ensures
      var after := ResetAll(ps)[i];
      && after.network == ps[i].network
      && after.unreachable == (ps[i].unreachable && ps[i].network.Some? && ps[i].network.value.chainId != 0)
  {
  }

  function EventStep(config: Networkish, s: State, e: Event): State
    requires s.providers != []
  {
    match e
    case Lookup => s.(active := GetProvider(s.providers, config, s.active).1)
    case Catch(err) =>
      var (active, last) := CatchStep(|s.providers|, s.active, s.lastPerformError, err);
      s.(active := active, lastPerformError := last)
    case Detect(answers) =>
      if |answers| <= |s.providers| then s.(providers := Detected(s.providers, answers)) else s
    case Reset => s.(providers := ResetAll(s.providers), active := 0)
  }

  function Run(config: Networkish, s: State, events: seq<Event>): (r: State)
    requires s.providers != []
    ensures |r.providers| == |s.providers|
    decreases |events|
  {
    if events == [] then s else Run(config, EventStep(config, s, events[0]), events[1..])
  }

  /** A flagged provider has no network, and the index is at most one past the end. */
  predicate Inv(s: State) {
    && s.providers != []
    && s.active <= |s.providers|
    && forall i :: 0 <= i < |s.providers| && s.providers[i].unreachable ==> s.providers[i].network.None?
  }

  function Initial(n: nat): State {
    State(seq(n, _ => Provider(None, false)), 0, None)
  }

  lemma EventKeepsInv(config: Networkish, s: State, e: Event)
    requires Inv(s)
    ensures Inv(EventStep(config, s, e))
  {
    var n := |s.providers|;
    if e.Catch? && n > 1 {
      assert 0 <= (s.active + 1) % n < n;
    }
  }

  lemma {:induction false} RunKeepsInv(config: Networkish, s: State, events: seq<Event>)
    requires Inv(s)
    ensures Inv(Run(config, s, events))
    decreases |events|
  {
    if events != [] {
      EventKeepsInv(config, s, events[0]);
      RunKeepsInv(config, EventStep(config, s, events[0]), events[1..]);
    }
  }

  /** In every reachable state a reset clears every flag and goes back to the first provider. */
  lemma ResetClearsAll(config: Networkish, n: nat, events: seq<Event>)
    requires n > 0
    ensures
      var s := EventStep(config, Run(config, Initial(n), events), Reset);
      && s.active == 0
      && forall i :: 0 <= i < |s.providers| ==> !s.providers[i].unreachable
  {
    RunKeepsInv(config, Initial(n), events);
  }

  function CaughtIn(events: seq<Event>): seq<ErrorId> {
    if events == [] then []
    else (if events[0].Catch? then [events[0].e] else []) + CaughtIn(events[1..])
  }

  /**
   * Any interleaving of lookups and caught errors of concurrent perform calls, all providers valid: the
   * index moves on, modulo n, once for every error that differs from the one caught just before.
   */
  lemma {:induction false} InterleavedCatches(config: Networkish, s: State, events: seq<Event>)
    requires AllValid(s.providers, config) && s.active < |s.providers|
    requires forall i :: 0 <= i < |events| ==> events[i].Lookup? || events[i].Catch?
    ensures Run(config, s, events).active
            == (s.active + Changes(s.lastPerformError, CaughtIn(events))) % |s.providers|
    ensures Run(config, s, events).providers == s.providers
  {
    CatchesRotate(config, s, events);
    RotateIsMod(|s.providers|, s.active, Changes(s.lastPerformError, CaughtIn(events)));
  }

  lemma {:induction false} CatchesRotate(config: Networkish, s: State, events: seq<Event>)
    requires AllValid(s.providers, config) && s.active < |s.providers|
    requires forall i :: 0 <= i < |events| ==> events[i].Lookup? || events[i].Catch?
    ensures Run(config, s, events).active
            == Rotate(|s.providers|, s.active, Changes(s.lastPerformError, CaughtIn(events)))
    ensures Run(config, s, events).providers == s.providers
    decreases |events|
  {
    if events != [] {
      var s', later := EventStep(config, s, events[0]), CaughtIn(events[1..]);
      if events[0].Catch? {
        NextIndexInRange(|s.providers|, s.active);
        ChangesFromNext(|s.providers|, s.active, s.lastPerformError, events[0].e, later);
      } else {
        ValidStays(s.providers, config, s.active);
        assert [] + later == later;
      }
      CatchesRotate(config, s', events[1..]);
    }
  }

  /** However many perform calls catch the one error of a failed batch in a row, the index moves at most once. */
  lemma {:induction false} OneBatchSwitchesOnce(config: Networkish, s: State, events: seq<Event>, e: ErrorId)
    requires AllValid(s.providers, config) && s.active < |s.providers|
    requires forall i :: 0 <= i < |events| ==> events[i] == Lookup || events[i] == Catch(e)
    ensures Run(config, s, events).active == s.active || Run(config, s, events).active == NextIndex(|s.providers|, s.active)
  {
    CaughtAre(events, e);
    SameErrorSwitchesOnce(s.lastPerformError, CaughtIn(events), e);
    CatchesRotate(config, s, events);
    assert Rotate(|s.providers|, s.active, 1) == Rotate(|s.providers|, NextIndex(|s.providers|, s.active), 0);
  }

  lemma {:induction false} CaughtAre(events: seq<Event>, e: ErrorId)
    requires forall i :: 0 <= i < |events| ==> events[i] == Lookup || events[i] == Catch(e)
    ensures forall i :: 0 <= i < |CaughtIn(events)| ==> CaughtIn(events)[i] == e
    decreases |events|
  {
    if events != [] {
      CaughtAre(events[1..], e);
    }
  }

  /** Two errors, such as two timeouts of one batch: over three providers they move the index from 0 to 2. */
  lemma {:induction false} TwoErrorsSwitchTwice(config: Networkish, ps: seq<Provider>, e: ErrorId, f: ErrorId)
    requires |ps| == 3 && AllValid(ps, config) && e != f
    ensures Run(config, State(ps, 0, None), [Catch(e), Catch(f)]).active == 2
  {
    var s := State(ps, 0, None);
    var events := [Catch(e), Catch(f)];
    assert events[1..] == [Catch(f)] && events[1..][1..] == [];
    var s1, s2 := State(ps, 1, Some(e)), State(ps, 2, Some(f));
    assert Run(config, s, events) == Run(config, s1, [Catch(f)]);
    assert Run(config, s1, [Catch(f)]) == Run(config, s2, []);
  }

  /** A first detection in which only the second of two providers answers leaves a flag that comes first. */
  lemma {:induction false} FlaggedFirstIsReachable(config: Networkish, e: ErrorId, network: Network)
    ensures
      var ps := Run(config, Initial(2), [Detect([Err(e), Ok(network)])]).providers;
      ps[0].unreachable && !ps[1].unreachable && !FlaggedLast(ps)
  {
    var s := EventStep(config, Initial(2), Detect([Err(e), Ok(network)]));
    assert [Detect([Err(e), Ok(network)])][1..] == [];
    assert s.providers[0].unreachable && !s.providers[1].unreachable;
  }
}
