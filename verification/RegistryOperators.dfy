/**
 * The operator table over runs of updates.  An update that finds the keysOpIndex unchanged replaces the meta
 * row alone, so whatever else changed about the operators stays as it was at the earlier block.
 */
module RegistryOperators {
  import opened Common
  import opened Utils
  import opened RegistryModel
  import opened RegistrySync

  /** Operators change in no column while keysOpIndex stays. */
  ghost predicate OperatorsFollowIndex(chain: seq<Snapshot>) {
    forall a, b :: 0 <= a <= b < |chain| && chain[a].keysOpIndex == chain[b].keysOpIndex ==>
      OperatorsAt(chain[a]) == OperatorsAt(chain[b])
  }

  /** The operator table is that of block s, the meta row that of block p; -1 stands for empty tables. */
  ghost predicate OperatorsSynced(db: Db, chain: seq<Snapshot>, s: int, p: int) {
    && -1 <= s <= p < |chain|
    && (s == -1 <==> p == -1)
    && MirrorsOperators(db.operators, SnapshotOf(chain, s))
    && db.metas == (if p == -1 then map[] else map[p as nat := StoredMeta(MetaAt(chain[p], p))])
    && (p != -1 ==> chain[s].keysOpIndex == chain[p].keysOpIndex)
  }

  lemma {:induction false} LatestMetaOf(db: Db, chain: seq<Snapshot>, s: int, p: int)
    requires OperatorsSynced(db, chain, s, p)
    ensures LatestMeta(db.metas) == if p == -1 then None else Some(StoredMeta(MetaAt(chain[p], p)))
  {
    if p == -1 {
      NoMeta();
    } else {
      OneMeta(db.metas, p, StoredMeta(MetaAt(chain[p], p)));
    }
  }

  lemma {:induction false} SaveKeepsOperatorsSynced(db: Db, chain: seq<Snapshot>, s: int, p: int, block: nat, rows: seq<KeyRow>)
    requires Regular(chain) && OperatorsSynced(db, chain, s, p) && p <= block < |chain|
    ensures OperatorsSynced(SaveDb(db, rows, OperatorsAt(chain[block]), MetaAt(chain[block], block)), chain, block, block)
  {
    OperatorsUpserted(db.operators, SnapshotOf(chain, s), chain[block]);
  }

  lemma {:induction false} UpdateKeepsOperatorsSynced(mode: Mode, db: Db, chain: seq<Snapshot>, s: int, p: int, block: nat)
    returns (s': int)
    requires Regular(chain) && OperatorsSynced(db, chain, s, p) && block < |chain|
    ensures OperatorsSynced(UpdateDb(mode, db, chain[block], block).0, chain, s', Max(p, block))
  {
    LatestMetaOf(db, chain, s, p);
    if p > block || (p != -1 && chain[p].keysOpIndex == chain[block].keysOpIndex) {
      s' := s;
    } else {
      s' := block;
      SaveKeepsOperatorsSynced(db, chain, s, p, block, UpdatedKeys(mode, FindAll(db.operators), chain[block]));
    }
  }

  lemma {:induction false} RunKeepsOperatorsSynced(mode: Mode, chain: seq<Snapshot>, steps: seq<Step>) returns (s: int)
    requires Regular(chain) && BlocksOf(chain, steps)
    ensures OperatorsSynced(RunDb(mode, chain, steps), chain, s, HighestBlock(steps))
    decreases |steps|
  {
    if steps == [] {
      s := -1;
    } else {
      var before := steps[..|steps| - 1];
      s := RunKeepsOperatorsSynced(mode, chain, before);
      match steps[|steps| - 1]
      case Update(block) =>
        s := UpdateKeepsOperatorsSynced(mode, RunDb(mode, chain, before), chain, s, HighestBlock(before), block);
      case Clear =>
        s := -1;
    }
  }

  lemma {:induction false} SameRowsMirror(operators: map<nat, OperatorRow>, a: Snapshot, b: Snapshot)
    requires MirrorsOperators(operators, a)
    ensures MirrorsOperators(operators, b) <==> OperatorsAt(a) == OperatorsAt(b)
  {
    if MirrorsOperators(operators, b) {
      PreviousOperators(operators, a);
      PreviousOperators(operators, b);
    }
    if OperatorsAt(a) == OperatorsAt(b) {
      assert |a.operators| == |OperatorsAt(a)| == |b.operators|;
      assert forall i :: 0 <= i < |a.operators| ==> OperatorsAt(a)[i] == OperatorAt(a, i) == OperatorAt(b, i);
    }
  }

  /** The operator table is the contract's, in every column, at the highest block since the last clearing. */
  ghost predicate OperatorsAreExact(mode: Mode, chain: seq<Snapshot>, steps: seq<Step>)
    requires Regular(chain) && BlocksOf(chain, steps)
  {
    && -1 <= HighestBlock(steps) < |chain|
    && MirrorsOperators(RunDb(mode, chain, steps).operators, SnapshotOf(chain, HighestBlock(steps)))
  }

  /** An update to a block with the same keysOpIndex leaves the operators of the earlier block. */
  lemma {:induction false} SameIndexKeepsOperators(mode: Mode, chain: seq<Snapshot>, a: nat, b: nat)
    requires Regular(chain) && a <= b < |chain| && chain[a].keysOpIndex == chain[b].keysOpIndex
    ensures BlocksOf(chain, [Update(a), Update(b)]) && HighestBlock([Update(a), Update(b)]) == b
    ensures MirrorsOperators(RunDb(mode, chain, [Update(a), Update(b)]).operators, chain[a])
  {
    OneUpdate(mode, chain, a);
    var db := RunDb(mode, chain, [Update(a)]);
    LatestMetaOf(db, chain, a, a);
    RunOneMore(mode, chain, [Update(a)], b, [Update(a), Update(b)]);
  }

  /**
   * The exact condition, in either mode and whatever happens to the keys: all runs end with the contract's
   * operators if and only if no operator changes in any column while keysOpIndex stays.
   */
  lemma {:induction false} OperatorRunsAreExact(mode: Mode, chain: seq<Snapshot>)
    requires Regular(chain)
    ensures (forall steps | BlocksOf(chain, steps) :: OperatorsAreExact(mode, chain, steps))
            <==> OperatorsFollowIndex(chain)
  {
    if OperatorsFollowIndex(chain) {
      forall steps | BlocksOf(chain, steps)
        ensures OperatorsAreExact(mode, chain, steps)
      {
        var s := RunKeepsOperatorsSynced(mode, chain, steps);
        var p := HighestBlock(steps);
        SameRowsMirror(RunDb(mode, chain, steps).operators, SnapshotOf(chain, s), SnapshotOf(chain, p));
      }
    } else {
      var a, b :| 0 <= a <= b < |chain| && chain[a].keysOpIndex == chain[b].keysOpIndex
                  && OperatorsAt(chain[a]) != OperatorsAt(chain[b]);
      SameIndexKeepsOperators(mode, chain, a, b);
      SameRowsMirror(RunDb(mode, chain, [Update(a), Update(b)]).operators, chain[a], chain[b]);
      assert !OperatorsAreExact(mode, chain, [Update(a), Update(b)]);
    }
  }

  // ---------------------------------------------------------------- all three tables

  /** The tables are those of one update from empty tables to the highest block since the last clearing. */
  ghost predicate RunIsResync(mode: Mode, chain: seq<Snapshot>, steps: seq<Step>)
    requires Regular(chain) && BlocksOf(chain, steps)
  {
    var p := HighestBlock(steps);
    && -1 <= p < |chain|
    && RunDb(mode, chain, steps) == if p == -1 then EMPTY_DB else UpdateDb(mode, EMPTY_DB, chain[p], p).0
  }

  lemma {:induction false} ResyncIsExact(mode: Mode, chain: seq<Snapshot>, p: nat)
    requires Regular(chain) && p < |chain|
    ensures
      var db := UpdateDb(mode, EMPTY_DB, chain[p], p).0;
      && MirrorsKeys(mode, db.keys, chain[p])
      && MirrorsOperators(db.operators, chain[p])
      && db.metas == map[p := StoredMeta(MetaAt(chain[p], p))]
  {
    FirstUpdate(mode, chain, p);
  }

  lemma OperatorMirrorIsUnique(a: map<nat, OperatorRow>, b: map<nat, OperatorRow>, snap: Snapshot)
    requires MirrorsOperators(a, snap) && MirrorsOperators(b, snap)
    ensures a == b
  {
    assert forall i: nat :: i in a ==> a[i] == OperatorAt(snap, i) && b[i] == OperatorAt(snap, i);
  }

  /** Exact tables of one block are equal. */
  lemma {:induction false} ExactTablesAreEqual(mode: Mode, x: Db, y: Db, snap: Snapshot)
    requires UsedWithinTotal(snap) && MirrorsKeys(mode, x.keys, snap) && MirrorsKeys(mode, y.keys, snap)
    requires MirrorsOperators(x.operators, snap) && MirrorsOperators(y.operators, snap) && x.metas == y.metas
    ensures x == y
  {
    MirrorIsUnique(mode, x.keys, y.keys, snap);
    OperatorMirrorIsUnique(x.operators, y.operators, snap);
  }

  /** A run ends like a full resync exactly when its keys with their counts, and its operators, are exact. */
  lemma {:induction false} ResyncMeansExact(mode: Mode, chain: seq<Snapshot>, steps: seq<Step>)
    requires Regular(chain) && BlocksOf(chain, steps)
    ensures RunIsResync(mode, chain, steps) <==>
            RunIsExact(mode, chain, steps) && OperatorsAreExact(mode, chain, steps)
  {
    var p := HighestBlock(steps);
    if -1 < p < |chain| {
      ResyncIsExact(mode, chain, p);
      if RunIsExact(mode, chain, steps) && OperatorsAreExact(mode, chain, steps) {
        ExactTablesAreEqual(mode, RunDb(mode, chain, steps), UpdateDb(mode, EMPTY_DB, chain[p], p).0, chain[p]);
      }
    }
  }

  /**
   * The exact condition for all tables: every run ends like one full resync if and only if every two blocks
   * save exactly and no operator changes in any column while keysOpIndex stays.
   */
  lemma {:induction false} RunsEqualResync(mode: Mode, chain: seq<Snapshot>)
    requires Regular(chain)
    ensures (forall steps | BlocksOf(chain, steps) :: RunIsResync(mode, chain, steps))
            <==> Honest(mode, chain) && OperatorsFollowIndex(chain)
  {
    RunsAreExact(mode, chain);
    OperatorRunsAreExact(mode, chain);
    forall steps | BlocksOf(chain, steps)
      ensures RunIsResync(mode, chain, steps) <==>
              RunIsExact(mode, chain, steps) && OperatorsAreExact(mode, chain, steps)
    {
      ResyncMeansExact(mode, chain, steps);
    }
  }

  /** For a contract that keeps its used keys, with the condition of each mode. */
  lemma {:induction false} ContractRunsEqualResync(mode: Mode, chain: seq<Snapshot>)
    requires Plausible(chain)
    ensures (forall steps | BlocksOf(chain, steps) :: RunIsResync(mode, chain, steps))
            <==> && (forall a, b :: 0 <= a <= b < |chain| ==> Mirrorable(mode, chain[a], chain[b]))
                 && OperatorsFollowIndex(chain)
  {
    RunsEqualResync(mode, chain);
    RunsAreExact(mode, chain);
    RunsOfContract(mode, chain);
  }

  /** A contract state with one keyless operator. */
  function OneOperator(rewardAddress: string): Snapshot {
    Snapshot("", 0, 1, [NodeOperator(rewardAddress, 0, Details(true, "", 0, 0), [])])
  }

  lemma {:induction false} OneOperatorIsPlausible(chain: seq<Snapshot>)
    requires |chain| == 2 && chain[0] == OneOperator("x") && chain[1] == OneOperator("y")
    ensures Plausible(chain)
  {
    forall b | 0 <= b < |chain|
      ensures Sound(chain[b])
    {
    }
    forall a, b | 0 <= a <= b < |chain|
      ensures Evolves(chain[a], chain[b]) && SameKeys(chain[a], chain[b])
    {
    }
  }

  lemma {:induction false} SameKeysAreHonest(mode: Mode, chain: seq<Snapshot>)
    requires Regular(chain) && forall a, b :: 0 <= a <= b < |chain| ==> SameKeys(chain[a], chain[b])
    ensures Honest(mode, chain)
  {
    forall a, b | 0 <= a <= b < |chain|
      ensures SavesExactly(mode, chain[a], chain[b])
    {
      SameKeysSaveExactly(mode, chain[a], chain[b]);
    }
  }

  /**
   * A reward address that changes between two blocks with one keysOpIndex: nothing is wrong with the keys,
   * yet the stored operator keeps its old address.
   */
  lemma {:induction false} NewAddressIsMissed(mode: Mode, chain: seq<Snapshot>)
    requires |chain| == 2 && chain[0] == OneOperator("x") && chain[1] == OneOperator("y")
    ensures Plausible(chain) && Honest(mode, chain)
    ensures BlocksOf(chain, [Update(0), Update(1)]) && BlocksOf(chain, [Update(1)])
    ensures RunIsExact(mode, chain, [Update(0), Update(1)])
    ensures RunDb(mode, chain, [Update(0), Update(1)]).operators != RunDb(mode, chain, [Update(1)]).operators
  {
    OneOperatorIsPlausible(chain);
    SameKeysAreHonest(mode, chain);
    RunMirrors(mode, chain, [Update(0), Update(1)]);
    SameIndexKeepsOperators(mode, chain, 0, 1);
    OneUpdate(mode, chain, 1);
    AddressesDiffer(RunDb(mode, chain, [Update(0), Update(1)]).operators, RunDb(mode, chain, [Update(1)]).operators);
  }

  lemma AddressesDiffer(x: map<nat, OperatorRow>, y: map<nat, OperatorRow>)
    requires MirrorsOperators(x, OneOperator("x")) && MirrorsOperators(y, OneOperator("y"))
    ensures x != y
  {
    assert 0 in x && 0 in y;
    assert x[0].rewardAddress == "x" && y[0].rewardAddress == "y";
  }
}
