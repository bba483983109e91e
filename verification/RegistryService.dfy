/** The registry service: an object that owns the three tables and changes them step by step. */
module RegistryService {
  import opened Common
  import opened Utils
  import opened RegistryModel

  /** Rows per insert statement. */
  const INSERT_LIMIT := 499

  lemma DeleteOneMore(keys: map<KeyId, KeyRow>, operators: seq<OperatorRow>, j: nat)
    requires j < |operators|
    ensures
      var before := DeleteAbove(keys, operators[..j]);
      DeleteAbove(keys, operators[..j + 1]) == map id | id in before && !RemovedBy(operators[j], id) :: before[id]
  {
    assert operators[..j + 1] == operators[..j] + [operators[j]];
    forall id: KeyId
      ensures Removed(operators[..j + 1], id) <==> Removed(operators[..j], id) || RemovedBy(operators[j], id)
    {
      if k :| 0 <= k < |operators[..j]| && RemovedBy(operators[..j][k], id) {
        assert RemovedBy(operators[..j + 1][k], id);
      }
      assert RemovedBy(operators[..j + 1][j], id) == RemovedBy(operators[j], id);
    }
  }

  lemma UpsertChunk<K, V>(m: map<K, V>, chunks: seq<seq<V>>, i: nat, id: V -> K)
    requires i < |chunks|
    ensures Upsert(m, Flatten(chunks[..i + 1]), id) == Upsert(Upsert(m, Flatten(chunks[..i]), id), chunks[i], id)
  {
    assert chunks[..i + 1] == chunks[..i] + [chunks[i]];
    FlattenAppend(chunks[..i], chunks[i]);
    UpsertConcat(m, Flatten(chunks[..i]), chunks[i], id);
  }

  class Registry {
    const mode: Mode
    var keys: map<KeyId, KeyRow>
    var operators: map<nat, OperatorRow>
    var metas: map<nat, MetaRow>

    function Contents(): Db
      reads this
    {
      Db(keys, operators, metas)
    }

    constructor (mode: Mode)
      ensures this.mode == mode && Contents() == EMPTY_DB
    {
      this.mode := mode;
      keys, operators, metas := map[], map[], map[];
    }

    /** One transaction: remove the keys above each total, insert keys and operators in chunks, replace the meta row. */
    method Save(updatedKeys: seq<KeyRow>, currentOperators: seq<OperatorRow>, currMeta: MetaRow)
      modifies this
      ensures Contents() == SaveDb(old(Contents()), updatedKeys, currentOperators, currMeta)
    {
      assert DeleteAbove(keys, currentOperators[..0]) == keys;
      for j := 0 to |currentOperators|
        invariant keys == DeleteAbove(old(keys), currentOperators[..j])
        invariant operators == old(operators)
      {
        DeleteOneMore(old(keys), currentOperators, j);
        var operator := currentOperators[j];
        keys := map id | id in keys && !RemovedBy(operator, id) :: keys[id];
      }
      assert currentOperators[..|currentOperators|] == currentOperators;
      ghost var kept := keys;

      var keyChunks := Chunk(updatedKeys, INSERT_LIMIT);
      for i := 0 to |keyChunks|
        invariant keys == Upsert(kept, Flatten(keyChunks[..i]), IdOfKey)
        invariant operators == old(operators)
      {
        UpsertChunk(kept, keyChunks, i, IdOfKey);
        keys := Upsert(keys, keyChunks[i], IdOfKey);
      }
      assert keyChunks[..|keyChunks|] == keyChunks;

      var operatorIndex := (o: OperatorRow) => o.index;
      var operatorChunks := Chunk(currentOperators, INSERT_LIMIT);
      for i := 0 to |operatorChunks|
        invariant operators == Upsert(old(operators), Flatten(operatorChunks[..i]), operatorIndex)
        invariant keys == Upsert(kept, updatedKeys, IdOfKey)
      {
        UpsertChunk(old(operators), operatorChunks, i, operatorIndex);
        operators := Upsert(operators, operatorChunks[i], operatorIndex);
      }
      assert operatorChunks[..|operatorChunks|] == operatorChunks;

      ReplaceMeta(currMeta);
    }

    method ReplaceMeta(currMeta: MetaRow)
      modifies this`metas
      ensures metas == map[currMeta.blockNumber := StoredMeta(currMeta)]
    {
      metas := map[];
      metas := metas[currMeta.blockNumber := StoredMeta(currMeta)];
    }

    /** Brings the tables to the given block; returns its meta row when keys were fetched. */
    method Update(snap: Snapshot, block: nat) returns (r: Option<MetaRow>)
      requires UsedWithinTotal(snap)
      modifies this
      ensures (Contents(), r) == UpdateDb(mode, old(Contents()), snap, block)
    {
      var prevMeta := LatestMeta(metas);
      var currMeta := MetaAt(snap, block);
      var isSameContractState := CompareMeta(prevMeta, Some(currMeta));
      var previousBlockNumber: int := if prevMeta.Some? then prevMeta.value.blockNumber else -1;
      if previousBlockNumber > currMeta.blockNumber {
        return None;
      }
      if isSameContractState {
        ReplaceMeta(currMeta);
        return None;
      }
      var previousOperators := FindAll(operators);
      var currentOperators := OperatorsAt(snap);
      var updatedKeys := UpdatedKeys(mode, previousOperators, snap);
      Save(updatedKeys, currentOperators, currMeta);
      return Some(currMeta);
    }

    method ClearAll()
      modifies this
      ensures Contents() == EMPTY_DB
    {
      keys, operators, metas := map[], map[], map[];
    }
  }
}
