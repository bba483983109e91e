/**
 * Validation of operator keys against the withdrawal credentials their module has or had: used keys
 * against all of them, newest first, unused keys against the current ones only.
 */
module LidoKeyValidator {
  import opened Common
  import opened KeyExecutors

  /** `extra` is whatever further data the caller attached to the key. */
  datatype LidoKey = LidoKey(index: Option<int>, key: string, depositSignature: string, used: bool,
                             moduleId: Option<int>, extra: string)

  datatype Key = Key(lidoKey: LidoKey, withdrawalCredentials: string, genesisForkVersion: string)

  type Outcome = (Key, bool)

  /** What the keys of one module are checked with. */
  datatype Group = Group(verify: Key -> bool, currentWC: string, previousWC: seq<string>, genesisForkVersion: string) {
    function Credentials(): (wcs: seq<string>) {
      [currentWC] + previousWC
    }

    function BasicKey(k: LidoKey, wc: string): Key {
      Key(k, wc, genesisForkVersion)
    }

    /** The first of the credentials from this index on that the key verifies with, or their number. */
    function FirstValid(k: LidoKey, from: nat): (i: nat)
      requires from <= |Credentials()|
      ensures from <= i <= |Credentials()|
      ensures forall j :: from <= j < i ==> !verify(BasicKey(k, Credentials()[j]))
      ensures i < |Credentials()| ==> verify(BasicKey(k, Credentials()[i]))
      decreases |Credentials()| - from
    {
      if from == |Credentials()| || verify(BasicKey(k, Credentials()[from])) then from
      else FirstValid(k, from + 1)
    }

    /** What is promised for a key on its own: the verdict, and the credentials it is reported with. */
    function Verdict(k: LidoKey): Outcome {
      var wcs := Credentials();
      var i := FirstValid(k, 0);
      if !k.used then (BasicKey(k, currentWC), verify(BasicKey(k, currentWC)))
      else if i < |wcs| then (BasicKey(k, wcs[i]), true)
      else (BasicKey(k, wcs[|wcs| - 1]), false)
    }

    /** Used keys by the credentials they verify with, then used keys with none, then unused keys. */
    function Place(k: LidoKey): (p: nat)
      ensures p <= |Credentials()| + 1
    {
      if k.used then FirstValid(k, 0) else |Credentials()| + 1
    }
  }

  // ---------------------------------------------------------------- the promised order

  /** The verdicts on the keys of one place, in the order of the keys. */
  function AtPlace(g: Group, keys: seq<LidoKey>, place: nat): seq<Outcome> {
    if keys == [] then []
    else (if g.Place(keys[0]) == place then [g.Verdict(keys[0])] else []) + AtPlace(g, keys[1..], place)
  }

  /** The verdicts of all places below this one, place by place. */
  function Below(g: Group, keys: seq<LidoKey>, place: nat): seq<Outcome> {
    if place == 0 then [] else Below(g, keys, place - 1) + AtPlace(g, keys, place - 1)
  }

  /** All verdicts, stably sorted by place. */
  function Sorted(g: Group, keys: seq<LidoKey>): seq<Outcome> {
    Below(g, keys, |g.Credentials()| + 2)
  }

  function Verdicts(g: Group, keys: seq<LidoKey>): seq<Outcome> {
    seq(|keys|, i requires 0 <= i < |keys| => g.Verdict(keys[i]))
  }

  /** How often this outcome is among the verdicts. */
  ghost function Count(outcomes: seq<Outcome>, x: Outcome): nat {
    if outcomes == [] then 0 else (if outcomes[0] == x then 1 else 0) + Count(outcomes[1..], x)
  }

  lemma {:induction false} CountIsMultiplicity(outcomes: seq<Outcome>, x: Outcome)
    ensures Count(outcomes, x) == multiset(outcomes)[x]
    decreases |outcomes|
  {
    if outcomes != [] {
      CountIsMultiplicity(outcomes[1..], x);
      assert outcomes == [outcomes[0]] + outcomes[1..];
    }
  }

  lemma {:induction false} CountSum(a: seq<Outcome>, b: seq<Outcome>, x: Outcome)
    ensures Count(a + b, x) == Count(a, x) + Count(b, x)
    decreases |a|
  {
    if a == [] {
      assert a + b == b;
    } else {
      CountSum(a[1..], b, x);
      assert (a + b)[1..] == a[1..] + b;
    }
  }

  lemma {:induction false} OneKeyOnePlace(g: Group, keys: seq<LidoKey>, place: nat, x: Outcome)
    requires keys != []
    ensures Count(Below(g, keys, place), x) ==
            Count(Below(g, keys[1..], place), x) +
            (if g.Place(keys[0]) < place && g.Verdict(keys[0]) == x then 1 else 0)
    decreases place
  {
    if place > 0 {
      OneKeyOnePlace(g, keys, place - 1, x);
      var own := if g.Place(keys[0]) == place - 1 then [g.Verdict(keys[0])] else [];
      CountSum(own, AtPlace(g, keys[1..], place - 1), x);
      CountSum(Below(g, keys, place - 1), AtPlace(g, keys, place - 1), x);
      CountSum(Below(g, keys[1..], place - 1), AtPlace(g, keys[1..], place - 1), x);
    }
  }

  lemma {:induction false} CountsAgree(g: Group, keys: seq<LidoKey>, x: Outcome)
    ensures Count(Sorted(g, keys), x) == Count(Verdicts(g, keys), x)
    decreases |keys|
  {
    var places := |g.Credentials()| + 2;
    if keys == [] {
      NothingBelow(g, places);
    } else {
      OneKeyOnePlace(g, keys, places, x);
      CountsAgree(g, keys[1..], x);
      assert Verdicts(g, keys) == [g.Verdict(keys[0])] + Verdicts(g, keys[1..]);
      CountSum([g.Verdict(keys[0])], Verdicts(g, keys[1..]), x);
    }
  }

  /** Every key is reported exactly once, with its own verdict. */
  lemma SortedIsPermutation(g: Group, keys: seq<LidoKey>)
    ensures multiset(Sorted(g, keys)) == multiset(Verdicts(g, keys))
  {
    forall x: Outcome
      ensures multiset(Sorted(g, keys))[x] == multiset(Verdicts(g, keys))[x]
    {
      CountsAgree(g, keys, x);
      CountIsMultiplicity(Sorted(g, keys), x);
      CountIsMultiplicity(Verdicts(g, keys), x);
    }
  }

  lemma {:induction false} NothingBelow(g: Group, place: nat)
    ensures Below(g, [], place) == []
    decreases place
  {
    if place > 0 {
      NothingBelow(g, place - 1);
    }
  }

  /** The key as it is checked with these credentials. */
  function With(g: Group, k: LidoKey, wc: string): Key {
    Key(k, wc, g.genesisForkVersion)
  }

  /**
   * What a verdict says.  An unused key is checked with the current credentials alone.  A used key is valid
   * with the current ones if these verify it, else with the first of the previous ones that do; when none
   * does it is invalid and carries the last that were tried.
   */
  lemma {:induction false} VerdictMeans(g: Group, k: LidoKey)
    ensures
      var (key, valid) := g.Verdict(k);
      && key.lidoKey == k && key.genesisForkVersion == g.genesisForkVersion
      && (!k.used ==> key == With(g, k, g.currentWC) && (valid <==> g.verify(With(g, k, g.currentWC))))
      && (k.used && g.verify(With(g, k, g.currentWC)) ==> valid && key == With(g, k, g.currentWC))
      && (forall i :: k.used && 0 <= i < |g.previousWC| && FirstPrevious(g, k, i) ==> valid && key == With(g, k, g.previousWC[i]))
      && (k.used && !g.verify(With(g, k, g.currentWC))
          && (forall i :: 0 <= i < |g.previousWC| ==> !g.verify(With(g, k, g.previousWC[i]))) ==>
            && !valid
            && key == With(g, k, if g.previousWC == [] then g.currentWC else g.previousWC[|g.previousWC| - 1]))
  {
    var wcs, first := g.Credentials(), g.FirstValid(k, 0);
    assert wcs[0] == g.currentWC && |wcs| == 1 + |g.previousWC|;
    assert forall i :: 0 <= i < |g.previousWC| ==> wcs[i + 1] == g.previousWC[i];
    assert forall i :: 0 <= i < |wcs| ==> g.BasicKey(k, wcs[i]) == With(g, k, wcs[i]);
    forall i | 0 <= i < |g.previousWC| && FirstPrevious(g, k, i)
      ensures first == i + 1
    {
      FirstPreviousIsFirst(g, k, i);
    }
    if first < |wcs| && first > 0 {
      assert wcs[first] == g.previousWC[first - 1];
    }
  }

  lemma {:induction false} FirstPreviousIsFirst(g: Group, k: LidoKey, i: nat)
    requires i < |g.previousWC| && FirstPrevious(g, k, i)
    ensures g.FirstValid(k, 0) == i + 1
  {
    var wcs := g.Credentials();
    assert g.verify(g.BasicKey(k, wcs[i + 1]));
    forall j | 0 <= j < i + 1
      ensures !g.verify(g.BasicKey(k, wcs[j]))
    {
      assert j > 0 ==> wcs[j] == g.previousWC[j - 1];
    }
  }

  /** Neither the current credentials nor earlier previous ones verify the key, but these do. */
  predicate FirstPrevious(g: Group, k: LidoKey, i: nat)
    requires i < |g.previousWC|
  {
    && !g.verify(With(g, k, g.currentWC))
    && (forall j :: 0 <= j < i ==> !g.verify(With(g, k, g.previousWC[j])))
    && g.verify(With(g, k, g.previousWC[i]))
  }

  // ---------------------------------------------------------------- the order, key by key

  /** The positions of the keys of one place, in a list whose first key has position `from`. */
  function PositionsAt(g: Group, keys: seq<LidoKey>, place: nat, from: nat): seq<nat> {
    if keys == [] then []
    else (if g.Place(keys[0]) == place then [from] else []) + PositionsAt(g, keys[1..], place, from + 1)
  }

  function PositionsBelow(g: Group, keys: seq<LidoKey>, place: nat): seq<nat> {
    if place == 0 then [] else PositionsBelow(g, keys, place - 1) + PositionsAt(g, keys, place - 1, 0)
  }

  /** Result x is the verdict on the key at this position. */
  ghost predicate VerdictsOf(g: Group, keys: seq<LidoKey>, positions: seq<nat>, results: seq<Outcome>) {
    && |positions| == |results|
    && forall x :: 0 <= x < |positions| ==> positions[x] < |keys| && results[x] == g.Verdict(keys[positions[x]])
  }

  /** Places never fall along the positions, and keys of one place keep their order. */
  ghost predicate StablyOrdered(g: Group, keys: seq<LidoKey>, positions: seq<nat>) {
    && (forall x :: 0 <= x < |positions| ==> positions[x] < |keys|)
    && forall x, y :: 0 <= x < y < |positions| ==>
         var p, q := g.Place(keys[positions[x]]), g.Place(keys[positions[y]]);
         p < q || (p == q && positions[x] < positions[y])
  }

  lemma {:induction false} PositionsOfPlace(g: Group, all: seq<LidoKey>, place: nat, from: nat)
    requires from <= |all|
    ensures VerdictsOf(g, all, PositionsAt(g, all[from..], place, from), AtPlace(g, all[from..], place))
    ensures forall x :: 0 <= x < |PositionsAt(g, all[from..], place, from)| ==>
              && from <= PositionsAt(g, all[from..], place, from)[x] < |all|
              && g.Place(all[PositionsAt(g, all[from..], place, from)[x]]) == place
    ensures forall x, y :: 0 <= x < y < |PositionsAt(g, all[from..], place, from)| ==>
              PositionsAt(g, all[from..], place, from)[x] < PositionsAt(g, all[from..], place, from)[y]
    decreases |all| - from
  {
    if from < |all| {
      PositionsOfPlace(g, all, place, from + 1);
      assert all[from..][1..] == all[from + 1..] && all[from..][0] == all[from];
    }
  }

  lemma {:induction false} PositionsInOrder(g: Group, keys: seq<LidoKey>, place: nat)
    ensures VerdictsOf(g, keys, PositionsBelow(g, keys, place), Below(g, keys, place))
    ensures StablyOrdered(g, keys, PositionsBelow(g, keys, place))
    ensures forall x :: 0 <= x < |PositionsBelow(g, keys, place)| ==> g.Place(keys[PositionsBelow(g, keys, place)[x]]) < place
    decreases place
  {
    if place > 0 {
      PositionsInOrder(g, keys, place - 1);
      PositionsOfPlace(g, keys, place - 1, 0);
      assert keys[0..] == keys;
    }
  }

  /**
   * The order of the results: there is a listing of all key positions along which places never fall and keys
   * of one place keep their order, and result x is the verdict on the key at position x of the listing.
   */
  lemma {:induction false} ResultsAreStablyOrdered(g: Group, keys: seq<LidoKey>) returns (positions: seq<nat>)
    ensures |positions| == |keys| == |Sorted(g, keys)|
    ensures VerdictsOf(g, keys, positions, Sorted(g, keys)) && StablyOrdered(g, keys, positions)
    ensures forall x, y :: 0 <= x < y < |positions| ==> positions[x] != positions[y]
  {
    positions := PositionsBelow(g, keys, |g.Credentials()| + 2);
    PositionsInOrder(g, keys, |g.Credentials()| + 2);
    SortedIsPermutation(g, keys);
    assert |multiset(Sorted(g, keys))| == |multiset(Verdicts(g, keys))|;
  }

  /** The places in terms of the credentials: current, each previous one, none, and unused keys last. */
  lemma {:induction false} PlaceMeans(g: Group, k: LidoKey)
    ensures !k.used ==> g.Place(k) == |g.previousWC| + 2
    ensures k.used && g.verify(With(g, k, g.currentWC)) ==> g.Place(k) == 0
    ensures forall i :: k.used && 0 <= i < |g.previousWC| && FirstPrevious(g, k, i) ==> g.Place(k) == i + 1
    ensures k.used && !g.Verdict(k).1 ==> g.Place(k) == |g.previousWC| + 1
  {
    var wcs, first := g.Credentials(), g.FirstValid(k, 0);
    assert wcs[0] == g.currentWC && |wcs| == 1 + |g.previousWC|;
    assert forall i :: 0 <= i < |g.previousWC| ==> wcs[i + 1] == g.previousWC[i];
    forall i | 0 <= i < |g.previousWC| && FirstPrevious(g, k, i)
      ensures first == i + 1
    {
      FirstPreviousIsFirst(g, k, i);
    }
  }

  // ---------------------------------------------------------------- the shrinking working set

  /** The used keys that none of the first credentials verify, carrying these. */
  function Remaining(g: Group, keys: seq<LidoKey>, tried: nat, wc: string): seq<Key> {
    if keys == [] then []
    else
      (if keys[0].used && g.FirstValid(keys[0], 0) >= tried then [g.BasicKey(keys[0], wc)] else []) +
      Remaining(g, keys[1..], tried, wc)
  }

  function UnusedKeys(g: Group, keys: seq<LidoKey>): seq<Key> {
    if keys == [] then []
    else (if keys[0].used then [] else [g.BasicKey(keys[0], g.currentWC)]) + UnusedKeys(g, keys[1..])
  }

  function Retag(keys: seq<Key>, wc: string): seq<Key> {
    seq(|keys|, i requires 0 <= i < |keys| => keys[i].(withdrawalCredentials := wc))
  }

  function Invalid(keys: seq<Key>): seq<Outcome> {
    seq(|keys|, i requires 0 <= i < |keys| => (keys[i], false))
  }

  function Passed(results: seq<Outcome>): seq<Outcome> {
    if results == [] then [] else (if results[0].1 then [results[0]] else []) + Passed(results[1..])
  }

  function Failed(results: seq<Outcome>): seq<Key> {
    if results == [] then [] else (if results[0].1 then [] else [results[0].0]) + Failed(results[1..])
  }

  lemma {:induction false} RetagRemaining(g: Group, keys: seq<LidoKey>, tried: nat, before: string, wc: string)
    ensures Retag(Remaining(g, keys, tried, before), wc) == Remaining(g, keys, tried, wc)
    decreases |keys|
  {
    if keys != [] {
      RetagRemaining(g, keys[1..], tried, before, wc);
    }
  }

  /** One round with credentials number i: the keys of place i pass, the others remain. */
  lemma {:induction false} OneRound(g: Group, keys: seq<LidoKey>, i: nat)
    requires i < |g.Credentials()|
    ensures
      var results := SingleThreaded(Remaining(g, keys, i, g.Credentials()[i]), g.verify);
      && Passed(results) == AtPlace(g, keys, i)
      && Failed(results) == Remaining(g, keys, i + 1, g.Credentials()[i])
    decreases |keys|
  {
    if keys != [] {
      var wc := g.Credentials()[i];
      OneRound(g, keys[1..], i);
      var rest := Remaining(g, keys[1..], i, wc);
      if keys[0].used && g.FirstValid(keys[0], 0) >= i {
        var k := g.BasicKey(keys[0], wc);
        SingleThreadedAppend([k], rest, g.verify);
        assert SingleThreaded([k] + rest, g.verify)[1..] == SingleThreaded(rest, g.verify);
      } else {
        assert Remaining(g, keys, i, wc) == rest;
      }
    }
  }

  lemma {:induction false} NeverValid(g: Group, keys: seq<LidoKey>)
    ensures
      var n := |g.Credentials()|;
      Invalid(Remaining(g, keys, n, g.Credentials()[n - 1])) == AtPlace(g, keys, n)
    decreases |keys|
  {
    if keys != [] {
      NeverValid(g, keys[1..]);
    }
  }

  lemma {:induction false} UnusedLast(g: Group, keys: seq<LidoKey>)
    ensures SingleThreaded(UnusedKeys(g, keys), g.verify) == AtPlace(g, keys, |g.Credentials()| + 1)
    decreases |keys|
  {
    if keys != [] {
      UnusedLast(g, keys[1..]);
    }
  }

  // ---------------------------------------------------------------- the service

  /** The key validator answers an empty list itself. */
  method KeyValidatorValidateKeys<K>(keys: seq<K>, verify: K -> bool) returns (results: seq<(K, bool)>)
    ensures results == SingleThreaded(keys, verify)
  {
    if |keys| == 0 {
      return [];
    }
    results := SingleThreaded(keys, verify);
  }

  lemma FirstSplit(g: Group, keys: seq<LidoKey>)
    requires keys != []
    ensures
      var basicKey := g.BasicKey(keys[0], g.currentWC);
      && Remaining(g, keys, 0, g.currentWC) ==
         (if keys[0].used then [basicKey] else []) + Remaining(g, keys[1..], 0, g.currentWC)
      && UnusedKeys(g, keys) == (if keys[0].used then [] else [basicKey]) + UnusedKeys(g, keys[1..])
  {
  }

  method SplitUsed(g: Group, lidoKeys: seq<LidoKey>) returns (usedKeys: seq<Key>, unusedKeys: seq<Key>)
    ensures usedKeys == Remaining(g, lidoKeys, 0, g.currentWC)
    ensures unusedKeys == UnusedKeys(g, lidoKeys)
  {
    usedKeys, unusedKeys := [], [];
    for i := 0 to |lidoKeys|
      invariant usedKeys + Remaining(g, lidoKeys[i..], 0, g.currentWC) == Remaining(g, lidoKeys, 0, g.currentWC)
      invariant unusedKeys + UnusedKeys(g, lidoKeys[i..]) == UnusedKeys(g, lidoKeys)
    {
      var basicKey := g.BasicKey(lidoKeys[i], g.currentWC);
      FirstSplit(g, lidoKeys[i..]);
      assert lidoKeys[i..][1..] == lidoKeys[i + 1..];
      if lidoKeys[i].used {
        usedKeys := usedKeys + [basicKey];
      } else {
        unusedKeys := unusedKeys + [basicKey];
      }
    }
  }

  method SplitResults(resultsForWC: seq<Outcome>) returns (passed: seq<Outcome>, remainingKeys: seq<Key>)
    ensures passed == Passed(resultsForWC)
    ensures remainingKeys == Failed(resultsForWC)
  {
    passed, remainingKeys := [], [];
    for i := 0 to |resultsForWC|
      invariant passed + Passed(resultsForWC[i..]) == Passed(resultsForWC)
      invariant remainingKeys + Failed(resultsForWC[i..]) == Failed(resultsForWC)
    {
      var res := resultsForWC[i];
      assert resultsForWC[i..][1..] == resultsForWC[i + 1..];
      if res.1 {
        passed := passed + [res];
      } else {
        remainingKeys := remainingKeys + [res.0];
      }
    }
  }

  /** Whatever the order of the attempts, the outcome is every key's own verdict, stably sorted by place. */
  method ValidateLidoKeysForDifferentPossibleWC(g: Group, lidoKeys: seq<LidoKey>) returns (results: seq<Outcome>)
    ensures results == Sorted(g, lidoKeys)
  {
    var usedKeys, unusedKeys := SplitUsed(g, lidoKeys);
    var unusedKeysResults := KeyValidatorValidateKeys(unusedKeys, g.verify);
    var usedKeysResults: seq<Outcome> := [];
    var remainingKeys := usedKeys;
    var wcs := g.Credentials();
    ghost var carried := g.currentWC;
    for i := 0 to |wcs|
      invariant usedKeysResults == Below(g, lidoKeys, i)
      invariant remainingKeys == Remaining(g, lidoKeys, i, carried)
      invariant i > 0 ==> carried == wcs[i - 1]
    {
      RetagRemaining(g, lidoKeys, i, carried, wcs[i]);
      OneRound(g, lidoKeys, i);
      var resultsForWC := KeyValidatorValidateKeys(Retag(remainingKeys, wcs[i]), g.verify);
      var passed;
      passed, remainingKeys := SplitResults(resultsForWC);
      usedKeysResults := usedKeysResults + passed;
      carried := wcs[i];
    }
    NeverValid(g, lidoKeys);
    UnusedLast(g, lidoKeys);
    usedKeysResults := usedKeysResults + Invalid(remainingKeys);
    assert usedKeysResults == Below(g, lidoKeys, |wcs| + 1);
    results := usedKeysResults + unusedKeysResults;
  }
}
