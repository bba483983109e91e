/** Validation of a list of keys: grouped by module, each group checked with the credentials of its module. */
module LidoKeyModules {
  import opened Common
  import opened Utils
  import opened LidoKeyValidator

  type ModuleId = Option<int>

  datatype PossibleWC = PossibleWC(currentWC: string, previousWC: seq<string>)

  /** What the chain answers; every question may fail. */
  datatype Setting = Setting(verify: Key -> bool, possibleWC: ModuleId -> Result<PossibleWC, string>,
                             chainId: Result<int, string>, forkVersions: map<int, string>)
  {
    function GenesisForkVersion(): Result<string, string> {
      match chainId
      case Err(e) => Err(e)
      case Ok(id) => if id in forkVersions then Ok(forkVersions[id]) else Err("GENESIS_FORK_VERSION is undefined")
    }

    /** What the keys of one module are checked with, or the first question that failed. */
    function GroupFor(m: ModuleId): Result<Group, string> {
      match possibleWC(m)
      case Err(e) => Err(e)
      case Ok(wc) =>
        match GenesisForkVersion()
        case Err(e) => Err(e)
        case Ok(v) => Ok(Group(verify, wc.currentWC, wc.previousWC, v))
    }

    /** The verdict on a key with the credentials of its own module. */
    function OwnVerdict(k: LidoKey): Outcome
      requires GroupFor(k.moduleId).Ok?
    {
      GroupFor(k.moduleId).value.Verdict(k)
    }
  }

  // ---------------------------------------------------------------- grouping

  /** The modules of the keys in order of first appearance. */
  function ModulesOf(keys: seq<LidoKey>): seq<ModuleId> {
    if keys == [] then []
    else
      var last := keys[|keys| - 1];
      var before := ModulesOf(keys[..|keys| - 1]);
      if last.moduleId in before then before else before + [last.moduleId]
  }

  /** The keys of one module in their order. */
  function KeysOf(keys: seq<LidoKey>, m: ModuleId): (own: seq<LidoKey>)
    ensures forall k :: k in own ==> k in keys && k.moduleId == m
  {
    if keys == [] then []
    else
      var last := keys[|keys| - 1];
      KeysOf(keys[..|keys| - 1], m) + (if last.moduleId == m then [last] else [])
  }

  predicate HasModule(keys: seq<LidoKey>, m: ModuleId) {
    exists i :: 0 <= i < |keys| && keys[i].moduleId == m
  }

  /** Each module that some key names, once. */
  lemma {:induction false} ModulesAreThoseOfKeys(keys: seq<LidoKey>)
    ensures forall m :: m in ModulesOf(keys) <==> HasModule(keys, m)
    ensures forall i, j :: 0 <= i < j < |ModulesOf(keys)| ==> ModulesOf(keys)[i] != ModulesOf(keys)[j]
    decreases |keys|
  {
    if keys != [] {
      var before := keys[..|keys| - 1];
      ModulesAreThoseOfKeys(before);
      forall m
        ensures m in ModulesOf(keys) <==> HasModule(keys, m)
      {
        assert HasModule(keys, m) <==> HasModule(before, m) || keys[|keys| - 1].moduleId == m;
      }
    }
  }

  /** Reading more keys only adds modules at the end: a module's place is that of its first key. */
  lemma {:induction false} ModulesGrow(keys: seq<LidoKey>, n: nat)
    requires n <= |keys|
    ensures ModulesOf(keys[..n]) <= ModulesOf(keys)
    decreases |keys|
  {
    if n < |keys| {
      ModulesGrow(keys[..|keys| - 1], n);
      assert keys[..|keys| - 1][..n] == keys[..n];
    } else {
      assert keys[..n] == keys;
    }
  }

  /** The map as filled by these keys, and its keys in insertion order. */
  ghost predicate Grouped(keys: seq<LidoKey>, modules: seq<ModuleId>, groups: map<ModuleId, seq<LidoKey>>) {
    && modules == ModulesOf(keys)
    && (forall m :: m in groups <==> m in modules)
    && (forall m :: m in groups ==> groups[m] == KeysOf(keys, m))
  }

  lemma GroupOneMore(keys: seq<LidoKey>, key: LidoKey, modules: seq<ModuleId>, groups: map<ModuleId, seq<LidoKey>>)
    requires Grouped(keys, modules, groups)
    ensures
      var m := key.moduleId;
      if m in groups then Grouped(keys + [key], modules, groups[m := groups[m] + [key]])
      else Grouped(keys + [key], modules + [m], groups[m := [key]])
  {
    assert (keys + [key])[..|keys|] == keys;
    if key.moduleId !in groups {
      NoKeyYet(keys, key.moduleId);
    }
  }

  lemma {:induction false} NoKeyYet(keys: seq<LidoKey>, m: ModuleId)
    requires m !in ModulesOf(keys)
    ensures KeysOf(keys, m) == []
    decreases |keys|
  {
    if keys != [] {
      NoKeyYet(keys[..|keys| - 1], m);
    }
  }

  /** `modules` lists the keys of the map in insertion order. */
  method GroupKeysByModule(keys: seq<LidoKey>) returns (modules: seq<ModuleId>, groups: map<ModuleId, seq<LidoKey>>)
    ensures Grouped(keys, modules, groups)
  {
    modules, groups := [], map[];
    for i := 0 to |keys|
      invariant Grouped(keys[..i], modules, groups)
    {
      var key := keys[i];
      GroupOneMore(keys[..i], key, modules, groups);
      assert keys[..i] + [key] == keys[..i + 1];
      if key.moduleId in groups {
        groups := groups[key.moduleId := groups[key.moduleId] + [key]];
      } else {
        modules := modules + [key.moduleId];
        groups := groups[key.moduleId := [key]];
      }
    }
    assert keys[..|keys|] == keys;
  }

  // ---------------------------------------------------------------- all groups

  /** The outcomes module by module, or the error of the first module that has one. */
  function Results(s: Setting, modules: seq<ModuleId>, keys: seq<LidoKey>): Result<seq<Outcome>, string> {
    if modules == [] then Ok([])
    else
      match s.GroupFor(modules[0])
      case Err(e) => Err(e)
      case Ok(g) => Prepend(Sorted(g, KeysOf(keys, modules[0])), Results(s, modules[1..], keys))
  }

  function Prepend(a: seq<Outcome>, r: Result<seq<Outcome>, string>): Result<seq<Outcome>, string> {
    match r
    case Err(e) => Err(e)
    case Ok(b) => Ok(a + b)
  }

  method ValidateKeys(s: Setting, lidoKeys: seq<LidoKey>) returns (results: Result<seq<Outcome>, string>)
    ensures results == Results(s, ModulesOf(lidoKeys), lidoKeys)
  {
    if |lidoKeys| == 0 {
      return Ok([]);
    }
    var modules, groups := GroupKeysByModule(lidoKeys);
    var all: seq<Outcome> := [];
    ghost var total := Results(s, modules, lidoKeys);
    PrependNothing(total);
    for i := 0 to |modules|
      invariant total == Prepend(all, Results(s, modules[i..], lidoKeys))
    {
      OneMoreModule(s, modules, lidoKeys, i, all);
      var group := s.GroupFor(modules[i]);
      if group.Err? {
        return Err(group.error);
      }
      var moduleResults := ValidateLidoKeysForDifferentPossibleWC(group.value, groups[modules[i]]);
      all := all + moduleResults;
    }
    assert modules[|modules|..] == [] && all + [] == all;
    results := Ok(all);
  }

  lemma OneMoreModule(s: Setting, modules: seq<ModuleId>, keys: seq<LidoKey>, i: nat, done: seq<Outcome>)
    requires i < |modules|
    ensures
      Prepend(done, Results(s, modules[i..], keys)) ==
      match s.GroupFor(modules[i])
      case Err(e) => Err(e)
      case Ok(g) => Prepend(done + Sorted(g, KeysOf(keys, modules[i])), Results(s, modules[i + 1..], keys))
  {
    assert modules[i..][0] == modules[i] && modules[i..][1..] == modules[i + 1..];
    if s.GroupFor(modules[i]).Ok? {
      PrependTwice(done, Sorted(s.GroupFor(modules[i]).value, KeysOf(keys, modules[i])),
                   Results(s, modules[i + 1..], keys));
    }
  }

  lemma PrependNothing(r: Result<seq<Outcome>, string>)
    ensures Prepend([], r) == r
  {
    if r.Ok? {
      assert [] + r.value == r.value;
    }
  }

  lemma PrependTwice(a: seq<Outcome>, b: seq<Outcome>, r: Result<seq<Outcome>, string>)
    ensures Prepend(a, Prepend(b, r)) == Prepend(a + b, r)
  {
    if r.Ok? {
      assert a + (b + r.value) == (a + b) + r.value;
    }
  }

  /** One key is validated with the credentials of its module, and the first of the results returned. */
  method ValidateKey(s: Setting, lidoKey: LidoKey) returns (result: Result<Outcome, string>)
    ensures s.GroupFor(lidoKey.moduleId).Ok? ==> result == Ok(s.OwnVerdict(lidoKey))
    ensures s.GroupFor(lidoKey.moduleId).Err? ==> result == Err(s.GroupFor(lidoKey.moduleId).error)
  {
    match s.GroupFor(lidoKey.moduleId) {
      case Err(e) =>
        result := Err(e);
      case Ok(g) =>
        var results := ValidateLidoKeysForDifferentPossibleWC(g, [lidoKey]);
        SortedIsPermutation(g, [lidoKey]);
        assert Verdicts(g, [lidoKey]) == [g.Verdict(lidoKey)];
        assert |results| == |multiset(results)| == 1;
        assert results[0] in multiset(results);
        result := Ok(results[0]);
    }
  }

  // ---------------------------------------------------------------- which credentials, in which order

  /** The credentials a module's keys are checked with, and what fails first when there are none. */
  lemma GroupMeans(s: Setting, m: ModuleId)
    ensures s.GroupFor(m).Ok? <==> s.possibleWC(m).Ok? && s.chainId.Ok? && s.chainId.value in s.forkVersions
    ensures s.GroupFor(m).Ok? ==>
              && s.GroupFor(m).value.verify == s.verify
              && s.GroupFor(m).value.currentWC == s.possibleWC(m).value.currentWC
              && s.GroupFor(m).value.previousWC == s.possibleWC(m).value.previousWC
              && s.GroupFor(m).value.genesisForkVersion == s.forkVersions[s.chainId.value]
    ensures s.possibleWC(m).Err? ==> s.GroupFor(m) == Err(s.possibleWC(m).error)
    ensures s.possibleWC(m).Ok? && s.chainId.Err? ==> s.GroupFor(m) == Err(s.chainId.error)
  {
  }

  /** Reading one more key adds it at the end of its module's keys and to no other module's. */
  lemma {:induction false} KeysOfInOrder(keys: seq<LidoKey>, k: LidoKey, m: ModuleId)
    ensures KeysOf([], m) == []
    ensures KeysOf(keys + [k], m) == KeysOf(keys, m) + (if k.moduleId == m then [k] else [])
  {
    assert (keys + [k])[..|keys|] == keys;
  }

  /** The results of each module, in the order of the modules. */
  ghost function ByModule(s: Setting, modules: seq<ModuleId>, keys: seq<LidoKey>): seq<seq<Outcome>>
    requires forall m :: m in modules ==> s.GroupFor(m).Ok?
  {
    seq(|modules|, i requires 0 <= i < |modules| => Sorted(s.GroupFor(modules[i]).value, KeysOf(keys, modules[i])))
  }

  /** All results of the first module come first, then those of the second, and so on. */
  lemma {:induction false} ResultsByModule(s: Setting, modules: seq<ModuleId>, keys: seq<LidoKey>)
    requires forall m :: m in modules ==> s.GroupFor(m).Ok?
    ensures Results(s, modules, keys) == Ok(Flatten(ByModule(s, modules, keys)))
    decreases |modules|
  {
    if modules != [] {
      ResultsByModule(s, modules[1..], keys);
      assert ByModule(s, modules, keys)[1..] == ByModule(s, modules[1..], keys);
    }
  }

  // ---------------------------------------------------------------- what the caller gets

  ghost predicate AllKnown(s: Setting, keys: seq<LidoKey>) {
    forall k :: k in keys ==> s.GroupFor(k.moduleId).Ok?
  }

  function OwnVerdicts(s: Setting, keys: seq<LidoKey>): seq<Outcome>
    requires AllKnown(s, keys)
  {
    seq(|keys|, i requires 0 <= i < |keys| => s.OwnVerdict(keys[i]))
  }

  /** Each key of the input is answered exactly once, with the verdict of its own module. */
  lemma {:induction false} EveryKeyIsAnsweredOnce(s: Setting, keys: seq<LidoKey>)
    requires AllKnown(s, keys)
    ensures Results(s, ModulesOf(keys), keys).Ok?
    ensures multiset(Results(s, ModulesOf(keys), keys).value) == multiset(OwnVerdicts(s, keys))
  {
    var modules := ModulesOf(keys);
    ModulesAreThoseOfKeys(keys);
    KnownModules(s, keys);
    AllModulesAnswer(s, modules, keys);
    forall x: Outcome
      ensures multiset(Results(s, modules, keys).value)[x] == multiset(OwnVerdicts(s, keys))[x]
    {
      ResultsCount(s, modules, keys, x);
      SpreadIsAll(s, modules, keys, x);
      CountIsMultiplicity(Results(s, modules, keys).value, x);
      CountIsMultiplicity(OwnVerdicts(s, keys), x);
    }
  }

  lemma KnownModules(s: Setting, keys: seq<LidoKey>)
    requires AllKnown(s, keys)
    ensures forall m :: m in ModulesOf(keys) ==> s.GroupFor(m).Ok?
  {
    ModulesAreThoseOfKeys(keys);
    forall m | m in ModulesOf(keys)
      ensures s.GroupFor(m).Ok?
    {
      var i :| 0 <= i < |keys| && keys[i].moduleId == m;
      assert keys[i] in keys;
    }
  }

  lemma {:induction false} AllModulesAnswer(s: Setting, modules: seq<ModuleId>, keys: seq<LidoKey>)
    requires forall m :: m in modules ==> s.GroupFor(m).Ok?
    ensures Results(s, modules, keys).Ok?
    decreases |modules|
  {
    if modules != [] {
      AllModulesAnswer(s, modules[1..], keys);
    }
  }

  /** How often this outcome is among the own verdicts of the keys of these modules, module by module. */
  ghost function Spread(s: Setting, modules: seq<ModuleId>, keys: seq<LidoKey>, x: Outcome): nat
    requires AllKnown(s, keys)
  {
    if modules == [] then 0
    else Count(OwnVerdicts(s, KeysOf(keys, modules[0])), x) + Spread(s, modules[1..], keys, x)
  }

  lemma {:induction false} ResultsCount(s: Setting, modules: seq<ModuleId>, keys: seq<LidoKey>, x: Outcome)
    requires AllKnown(s, keys) && forall m :: m in modules ==> s.GroupFor(m).Ok?
    ensures Results(s, modules, keys).Ok?
    ensures Count(Results(s, modules, keys).value, x) == Spread(s, modules, keys, x)
    decreases |modules|
  {
    if modules != [] {
      ResultsCount(s, modules[1..], keys, x);
      var g := s.GroupFor(modules[0]).value;
      var own := KeysOf(keys, modules[0]);
      CountSum(Sorted(g, own), Results(s, modules[1..], keys).value, x);
      CountsAgree(g, own, x);
      assert Verdicts(g, own) == OwnVerdicts(s, own);
    }
  }

  lemma {:induction false} SpreadOneMore(s: Setting, modules: seq<ModuleId>, keys: seq<LidoKey>, x: Outcome)
    requires AllKnown(s, keys) && keys != []
    requires forall i, j :: 0 <= i < j < |modules| ==> modules[i] != modules[j]
    ensures AllKnown(s, keys[..|keys| - 1])
    ensures
      var last := keys[|keys| - 1];
      Spread(s, modules, keys, x) ==
      Spread(s, modules, keys[..|keys| - 1], x) +
      (if last.moduleId in modules && s.OwnVerdict(last) == x then 1 else 0)
    decreases |modules|
  {
    if modules != [] {
      SpreadOneMore(s, modules[1..], keys, x);
      var last := keys[|keys| - 1];
      var before := KeysOf(keys[..|keys| - 1], modules[0]);
      if last.moduleId == modules[0] {
        assert last.moduleId !in modules[1..];
        assert OwnVerdicts(s, before + [last]) == OwnVerdicts(s, before) + [s.OwnVerdict(last)];
        CountSum(OwnVerdicts(s, before), [s.OwnVerdict(last)], x);
      } else {
        assert KeysOf(keys, modules[0]) == before;
      }
    }
  }

  lemma {:induction false} SpreadIsAll(s: Setting, modules: seq<ModuleId>, keys: seq<LidoKey>, x: Outcome)
    requires AllKnown(s, keys)
    requires forall i, j :: 0 <= i < j < |modules| ==> modules[i] != modules[j]
    requires forall k :: 0 <= k < |keys| ==> keys[k].moduleId in modules
    ensures Spread(s, modules, keys, x) == Count(OwnVerdicts(s, keys), x)
    decreases |keys|
  {
    if keys == [] {
      NoKeysNoSpread(s, modules, x);
    } else {
      var last := keys[|keys| - 1];
      var before := keys[..|keys| - 1];
      SpreadOneMore(s, modules, keys, x);
      SpreadIsAll(s, modules, before, x);
      CountLast(s, keys, x);
      assert last.moduleId in modules;
    }
  }

  lemma CountLast(s: Setting, keys: seq<LidoKey>, x: Outcome)
    requires AllKnown(s, keys) && keys != []
    ensures AllKnown(s, keys[..|keys| - 1]) && s.GroupFor(keys[|keys| - 1].moduleId).Ok?
    ensures Count(OwnVerdicts(s, keys), x) ==
            Count(OwnVerdicts(s, keys[..|keys| - 1]), x) + (if s.OwnVerdict(keys[|keys| - 1]) == x then 1 else 0)
  {
    var last := keys[|keys| - 1];
    var before := keys[..|keys| - 1];
    assert last in keys;
    assert OwnVerdicts(s, keys) == OwnVerdicts(s, before) + [s.OwnVerdict(last)];
    CountSum(OwnVerdicts(s, before), [s.OwnVerdict(last)], x);
  }

  lemma {:induction false} NoKeysNoSpread(s: Setting, modules: seq<ModuleId>, x: Outcome)
    ensures Spread(s, modules, [], x) == 0
    decreases |modules|
  {
    if modules != [] {
      NoKeysNoSpread(s, modules[1..], x);
    }
  }

  /** The call fails exactly when some key's module has no answer, with the error of the first such key. */
  lemma FailsWithFirstError(s: Setting, keys: seq<LidoKey>)
    ensures Results(s, ModulesOf(keys), keys).Ok? <==> AllKnown(s, keys)
    ensures forall i :: 0 <= i < |keys| && AllKnown(s, keys[..i]) && s.GroupFor(keys[i].moduleId).Err? ==>
              Results(s, ModulesOf(keys), keys) == Err(s.GroupFor(keys[i].moduleId).error)
  {
    forall i | 0 <= i < |keys| && AllKnown(s, keys[..i]) && s.GroupFor(keys[i].moduleId).Err?
      ensures Results(s, ModulesOf(keys), keys) == Err(s.GroupFor(keys[i].moduleId).error)
    {
      FirstErrorWins(s, keys, i);
    }
    if AllKnown(s, keys) {
      EveryKeyIsAnsweredOnce(s, keys);
    } else {
      var i := FirstUnknown(s, keys);
      FirstErrorWins(s, keys, i);
    }
  }

  lemma {:induction false} FirstUnknown(s: Setting, keys: seq<LidoKey>) returns (i: nat)
    requires !AllKnown(s, keys)
    ensures i < |keys| && AllKnown(s, keys[..i]) && s.GroupFor(keys[i].moduleId).Err?
    decreases |keys|
  {
    var before := keys[..|keys| - 1];
    assert keys == before + [keys[|keys| - 1]];
    if AllKnown(s, before) {
      i := |keys| - 1;
    } else {
      i := FirstUnknown(s, before);
      assert before[..i] == keys[..i];
    }
  }

  lemma FirstErrorWins(s: Setting, keys: seq<LidoKey>, i: nat)
    requires i < |keys| && AllKnown(s, keys[..i]) && s.GroupFor(keys[i].moduleId).Err?
    ensures Results(s, ModulesOf(keys), keys) == Err(s.GroupFor(keys[i].moduleId).error)
  {
    var known := ModulesOf(keys[..i]);
    assert keys[..i + 1][..i] == keys[..i] && keys[..i + 1][i] == keys[i];
    ModulesGrow(keys, i + 1);
    KnownModules(s, keys[..i]);
    assert keys[i].moduleId !in known;
    assert ModulesOf(keys[..i + 1]) == known + [keys[i].moduleId];
    ErrorAfterKnown(s, ModulesOf(keys), keys, |known|);
  }

  lemma {:induction false} ErrorAfterKnown(s: Setting, modules: seq<ModuleId>, keys: seq<LidoKey>, n: nat)
    requires n < |modules| && forall j :: 0 <= j < n ==> s.GroupFor(modules[j]).Ok?
    requires s.GroupFor(modules[n]).Err?
    ensures Results(s, modules, keys) == Err(s.GroupFor(modules[n]).error)
    decreases n
  {
    if n > 0 {
      ErrorAfterKnown(s, modules[1..], keys, n - 1);
    }
  }
}
