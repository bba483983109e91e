/** The stored rows column by column, in terms of the contract alone. */
module RegistryRows {
  import opened Common
  import opened Utils
  import opened RegistryModel
  import opened RegistrySync
  import opened RegistryOperators

  /** The number of keys per operator that the two registries promise to mirror. */
  function KeyCount(mode: Mode, o: NodeOperator): nat {
    match mode
    case Keys => |o.keys|
    case Validators => o.used
  }

  /** After an exact run the key rows are one for each promised key of the contract, column by column. */
  lemma {:induction false} StoredKeysMean(mode: Mode, chain: seq<Snapshot>, steps: seq<Step>, operatorIndex: nat, index: nat)
    requires Regular(chain) && BlocksOf(chain, steps) && RunIsExact(mode, chain, steps) && HighestBlock(steps) != -1
    ensures
      var keys, operators := RunDb(mode, chain, steps).keys, chain[HighestBlock(steps)].operators;
      && ((operatorIndex, index) in keys <==>
            operatorIndex < |operators| && index < KeyCount(mode, operators[operatorIndex]))
      && ((operatorIndex, index) in keys ==>
            && index < |operators[operatorIndex].keys|
            && var row, k := keys[(operatorIndex, index)], operators[operatorIndex].keys[index];
               && row.operatorIndex == operatorIndex && row.index == index
               && row.key == k.key && row.depositSignature == k.depositSignature && row.used == k.used)
  {
    var snap := chain[HighestBlock(steps)];
    var id: KeyId := (operatorIndex, index);
    assert InScope(mode, snap, id) <==> operatorIndex < |snap.operators| && index < KeyCount(mode, snap.operators[operatorIndex]);
  }

  /** After a run with exact operators the operator rows are the contract's operators, column by column. */
  lemma {:induction false} StoredOperatorsMean(mode: Mode, chain: seq<Snapshot>, steps: seq<Step>, i: nat)
    requires Regular(chain) && BlocksOf(chain, steps) && OperatorsAreExact(mode, chain, steps) && HighestBlock(steps) != -1
    ensures
      var rows, operators := RunDb(mode, chain, steps).operators, chain[HighestBlock(steps)].operators;
      && (i in rows <==> i < |operators|)
      && (i in rows ==>
            && rows[i].index == i
            && rows[i].rewardAddress == operators[i].rewardAddress
            && rows[i].totalSigningKeys == |operators[i].keys|
            && rows[i].usedSigningKeys == operators[i].used
            && rows[i].details == operators[i].details)
  {
    var rows, snap := RunDb(mode, chain, steps).operators, chain[HighestBlock(steps)];
    assert i in rows ==> rows[i] == OperatorAt(snap, i);
  }

  /** After any run there is at most one meta row, with the columns of the highest block; the hash in lower case. */
  lemma {:induction false} StoredMetaMeans(mode: Mode, chain: seq<Snapshot>, steps: seq<Step>)
    requires Regular(chain) && BlocksOf(chain, steps)
    ensures
      var metas, p := RunDb(mode, chain, steps).metas, HighestBlock(steps);
      && -1 <= p < |chain|
      && metas.Keys == (if p == -1 then {} else {p as nat})
      && (p != -1 ==>
            && metas[p as nat].blockNumber == p
            && metas[p as nat].blockHash == Lower(chain[p].blockHash)
            && metas[p as nat].keysOpIndex == chain[p].keysOpIndex
            && metas[p as nat].timestamp == chain[p].timestamp)
  {
    var s := RunKeepsOperatorsSynced(mode, chain, steps);
  }

  /**
   * What one update does after any run: nothing when the block is older than the stored one; under the stored
   * keysOpIndex only the meta row changes; otherwise keys are fetched and the meta data is returned.
   */
  lemma {:induction false} UpdateMeans(mode: Mode, chain: seq<Snapshot>, steps: seq<Step>, block: nat)
    requires Regular(chain) && BlocksOf(chain, steps) && block < |chain|
    ensures -1 <= HighestBlock(steps) < |chain|
    ensures
      var db, p, snap := RunDb(mode, chain, steps), HighestBlock(steps), chain[block];
      var (db', r) := UpdateDb(mode, db, snap, block);
      && (p > block ==> db' == db)
      && (r.Some? <==> p == -1 || (p <= block && chain[p].keysOpIndex != snap.keysOpIndex))
      && (r.None? ==> db'.keys == db.keys && db'.operators == db.operators)
      && (p <= block ==> db'.metas.Keys == {block})
      && (r.Some? ==>
            && r.value.blockNumber == block
            && r.value.blockHash == snap.blockHash
            && r.value.keysOpIndex == snap.keysOpIndex
            && r.value.timestamp == snap.timestamp)
  {
    var s := RunKeepsOperatorsSynced(mode, chain, steps);
    LatestMetaOf(RunDb(mode, chain, steps), chain, s, HighestBlock(steps));
  }
}
