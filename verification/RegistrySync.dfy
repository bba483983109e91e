/** When the key table mirrors the contract at the stored block: for one save, and over runs of updates. */
module RegistrySync {
  import opened Common
  import opened Utils
  import opened RegistryModel

  // ---------------------------------------------------------------- what is assumed of the contract

  predicate SameAddress(a: NodeOperator, b: NodeOperator) {
    Lower(a.rewardAddress) == Lower(b.rewardAddress)
  }

  /** Used keys stay the same keys while the reward address does, unless keys were taken away below them. */
  predicate UsedKeysKept(a: NodeOperator, b: NodeOperator) {
    SameAddress(a, b) && a.used <= |b.keys| ==>
      forall i :: 0 <= i < a.used && i < |a.keys| ==>
        b.keys[i].key == a.keys[i].key && b.keys[i].depositSignature == a.keys[i].depositSignature
  }

  /** A key is reported as used exactly when it is below the used count. */
  predicate FlagsFollowCount(snap: Snapshot) {
    forall i :: 0 <= i < |snap.operators| ==>
      forall k :: 0 <= k < |snap.operators[i].keys| ==>
        (snap.operators[i].keys[k].used <==> k < snap.operators[i].used)
  }

  predicate Sound(snap: Snapshot) {
    UsedWithinTotal(snap) && FlagsFollowCount(snap)
  }

  /** An unchanged keysOpIndex means unchanged keys and unchanged used counts. */
  predicate SameKeys(a: Snapshot, b: Snapshot) {
    && |a.operators| == |b.operators|
    && forall i :: 0 <= i < |a.operators| ==>
         a.operators[i].keys == b.operators[i].keys && a.operators[i].used == b.operators[i].used
  }

  /** How the contract may change from one block to any later one: operators are only appended. */
  predicate Evolves(a: Snapshot, b: Snapshot) {
    && |a.operators| <= |b.operators|
    && (forall i :: 0 <= i < |a.operators| ==> UsedKeysKept(a.operators[i], b.operators[i]))
  }

  /** Operators are only appended, and keys change only with keysOpIndex; the keys themselves may change freely. */
  ghost predicate Regular(chain: seq<Snapshot>) {
    && (forall b :: 0 <= b < |chain| ==> UsedWithinTotal(chain[b]))
    && (forall a, b :: 0 <= a <= b < |chain| ==>
          && |chain[a].operators| <= |chain[b].operators|
          && (chain[a].keysOpIndex == chain[b].keysOpIndex ==> SameKeys(chain[a], chain[b])))
  }

  /** What the update relies on in addition: used keys are kept; used counts may rise and fall. */
  ghost predicate Plausible(chain: seq<Snapshot>) {
    && Regular(chain)
    && (forall b :: 0 <= b < |chain| ==> Sound(chain[b]))
    && (forall a, b :: 0 <= a <= b < |chain| ==> Evolves(chain[a], chain[b]))
  }

  /**
   * The changes of one operator that a save over a mirror of the earlier state handles.  A used count
   * that falls is a problem when the formerly used keys are still there: in keys mode they are not
   * refetched and keep their used flag, in validators mode their rows are not removed.
   */
  predicate OperatorMirrorable(mode: Mode, a: NodeOperator, b: NodeOperator) {
    match mode
    case Keys => !(SameAddress(a, b) && b.used < a.used <= |b.keys|)
    case Validators => b.used < a.used ==> b.used == |b.keys|
  }

  predicate Mirrorable(mode: Mode, prior: Snapshot, next: Snapshot)
    requires |prior.operators| <= |next.operators|
  {
    forall i :: 0 <= i < |prior.operators| ==> OperatorMirrorable(mode, prior.operators[i], next.operators[i])
  }

  // ---------------------------------------------------------------- the mirror

  /** The right border of the keys that the mode keeps for operator i. */
  function Bound(mode: Mode, snap: Snapshot, i: nat): nat
    requires i < |snap.operators|
  {
    ToIndex(mode, OperatorAt(snap, i))
  }

  predicate InScope(mode: Mode, snap: Snapshot, id: KeyId) {
    id.0 < |snap.operators| && id.1 < Bound(mode, snap, id.0)
  }

  /** The key table holds exactly the keys in scope, with the contract's contents. */
  ghost predicate MirrorsKeys(mode: Mode, keys: map<KeyId, KeyRow>, snap: Snapshot) {
    && (forall id :: id in keys <==> InScope(mode, snap, id))
    && (forall id :: id in keys && HasKey(snap, id) ==> keys[id] == KeyAt(snap, id))
  }

  ghost predicate MirrorsOperators(operators: map<nat, OperatorRow>, snap: Snapshot) {
    && (forall i: nat :: i in operators <==> i < |snap.operators|)
    && (forall i: nat :: i < |snap.operators| && i in operators ==> operators[i] == OperatorAt(snap, i))
  }

  const NO_CONTRACT: Snapshot := Snapshot("", 0, 0, [])

  lemma PreviousOperators(operators: map<nat, OperatorRow>, snap: Snapshot)
    requires MirrorsOperators(operators, snap)
    ensures FindAll(operators) == OperatorsAt(snap)
  {
    FindAllContiguous(operators, 0, OperatorsAt(snap));
  }

  // ---------------------------------------------------------------- one save

  /** Where the fetched part of operator i starts. */
  function Fetched(mode: Mode, prior: Snapshot, next: Snapshot, i: nat): nat
    requires i < |next.operators|
  {
    FromIndex(mode, At(OperatorsAt(prior), i), OperatorAt(next, i))
  }

  /** The keys that are in scope and below the fetched part: stored before and not fetched again. */
  predicate Skipped(mode: Mode, prior: Snapshot, next: Snapshot, id: KeyId)
    requires UsedWithinTotal(prior)
    ensures Skipped(mode, prior, next, id) ==> InScope(mode, prior, id) && HasKey(prior, id)
  {
    InScope(mode, next, id) && id.1 < Fetched(mode, prior, next, id.0)
  }

  /** The contract did not change what is not fetched again. */
  ghost predicate SkippedUnchanged(mode: Mode, prior: Snapshot, next: Snapshot)
    requires UsedWithinTotal(prior) && UsedWithinTotal(next)
  {
    forall id: KeyId :: Skipped(mode, prior, next, id) ==> KeyAt(prior, id) == KeyAt(next, id)
  }

  lemma {:induction false} FetchedOf(mode: Mode, prior: Snapshot, next: Snapshot, i: nat, row: KeyRow)
    requires UsedWithinTotal(next) && i < |next.operators|
    ensures row in KeysToFetch(mode, OperatorsAt(prior), next, i) <==>
            && row.operatorIndex == i
            && Fetched(mode, prior, next, i) <= row.index < Bound(mode, next, i)
            && row == KeyAt(next, (i, row.index))
  {
    var rows, from := KeysToFetch(mode, OperatorsAt(prior), next, i), Fetched(mode, prior, next, i);
    assert |rows| == Bound(mode, next, i) - from;
    assert forall j :: 0 <= j < |rows| ==> rows[j] == KeyAt(next, (i, from + j));
    if row.operatorIndex == i && from <= row.index < Bound(mode, next, i) && row == KeyAt(next, (i, row.index)) {
      assert rows[row.index - from] == row;
    }
  }

  /** A row is fetched exactly when it is a key of the contract in the fetched range of its operator. */
  lemma {:induction false} FetchedRows(mode: Mode, prior: Snapshot, next: Snapshot, row: KeyRow)
    requires UsedWithinTotal(next)
    ensures row in UpdatedKeys(mode, OperatorsAt(prior), next) <==>
            && InScope(mode, next, IdOfKey(row))
            && Fetched(mode, prior, next, row.operatorIndex) <= row.index
            && row == KeyAt(next, IdOfKey(row))
  {
    var prev := OperatorsAt(prior);
    var parts := seq(|next.operators|, i requires 0 <= i < |next.operators| => KeysToFetch(mode, prev, next, i));
    FlattenHas(parts, row);
    if i :| 0 <= i < |parts| && row in parts[i] {
      assert parts[i] == KeysToFetch(mode, prev, next, i);
      FetchedOf(mode, prior, next, i, row);
    }
    if row.operatorIndex < |parts| {
      assert parts[row.operatorIndex] == KeysToFetch(mode, prev, next, row.operatorIndex);
      FetchedOf(mode, prior, next, row.operatorIndex, row);
    }
  }

  /** How far the stored keys of operator i reach after saving `next` over a mirror of `prior`. */
  function Reach(mode: Mode, prior: Snapshot, next: Snapshot, i: nat): nat
    requires i < |next.operators|
  {
    var kept := if i < |prior.operators| then Min(Bound(mode, prior, i), |next.operators[i].keys|) else 0;
    Max(Bound(mode, next, i), kept)
  }

  /** The key table after saving `next` over a mirror of `prior`. */
  function NextKeys(mode: Mode, keys: map<KeyId, KeyRow>, prior: Snapshot, next: Snapshot): map<KeyId, KeyRow>
    requires UsedWithinTotal(next)
  {
    Upsert(DeleteAbove(keys, OperatorsAt(next)), UpdatedKeys(mode, OperatorsAt(prior), next), IdOfKey)
  }

  /** What a save leaves in the key table, for either mode and whatever happened to the keys. */
  lemma {:induction false} SaveReaches(mode: Mode, keys: map<KeyId, KeyRow>, prior: Snapshot, next: Snapshot, id: KeyId)
    requires UsedWithinTotal(prior) && UsedWithinTotal(next) && |prior.operators| <= |next.operators|
    requires MirrorsKeys(mode, keys, prior)
    ensures
      var keys' := NextKeys(mode, keys, prior, next);
      && (id in keys' <==> id.0 < |next.operators| && id.1 < Reach(mode, prior, next, id.0))
      && (InScope(mode, next, id) ==>
            id in keys' && keys'[id] == if Skipped(mode, prior, next, id) then KeyAt(prior, id) else KeyAt(next, id))
  {
    var rows := UpdatedKeys(mode, OperatorsAt(prior), next);
    UpsertLookup(DeleteAbove(keys, OperatorsAt(next)), rows, IdOfKey, id);
    KeptRows(mode, keys, prior, next, id);
    FetchedIds(mode, prior, next, rows, id);
  }

  lemma {:induction false} FetchedIds(mode: Mode, prior: Snapshot, next: Snapshot, rows: seq<KeyRow>, id: KeyId)
    requires UsedWithinTotal(next) && rows == UpdatedKeys(mode, OperatorsAt(prior), next)
    ensures (exists j :: 0 <= j < |rows| && IdOfKey(rows[j]) == id)
            <==> InScope(mode, next, id) && Fetched(mode, prior, next, id.0) <= id.1
    ensures forall j :: 0 <= j < |rows| && IdOfKey(rows[j]) == id ==> HasKey(next, id) && rows[j] == KeyAt(next, id)
  {
    forall j | 0 <= j < |rows|
      ensures IdOfKey(rows[j]) == id ==>
                InScope(mode, next, id) && Fetched(mode, prior, next, id.0) <= id.1 && rows[j] == KeyAt(next, id)
    {
      assert rows[j] in rows;
      FetchedRows(mode, prior, next, rows[j]);
    }
    if InScope(mode, next, id) && Fetched(mode, prior, next, id.0) <= id.1 {
      FetchedRows(mode, prior, next, KeyAt(next, id));
      assert KeyAt(next, id) in rows;
    }
  }

  /** The rows that survive the deletion; among them all that are not fetched again. */
  lemma {:induction false} KeptRows(mode: Mode, keys: map<KeyId, KeyRow>, prior: Snapshot, next: Snapshot, id: KeyId)
    requires UsedWithinTotal(prior) && UsedWithinTotal(next) && |prior.operators| <= |next.operators|
    requires MirrorsKeys(mode, keys, prior)
    ensures
      var kept := DeleteAbove(keys, OperatorsAt(next));
      && (id in kept <==> InScope(mode, prior, id) && id.1 < |next.operators[id.0].keys|)
      && (id in kept ==> kept[id] == KeyAt(prior, id))
      && (Skipped(mode, prior, next, id) ==> id in kept)
  {
    var ops := OperatorsAt(next);
    if id.0 < |next.operators| && id.1 >= |next.operators[id.0].keys| {
      assert RemovedBy(ops[id.0], id);
    }
  }

  /** No operator's rows reach beyond its border after the save. */
  predicate WithinBorders(mode: Mode, prior: Snapshot, next: Snapshot) {
    forall i :: 0 <= i < |next.operators| ==> Reach(mode, prior, next, i) == Bound(mode, next, i)
  }

  /** What decides whether a save over a mirror of the earlier state mirrors the later one. */
  ghost predicate SavesExactly(mode: Mode, prior: Snapshot, next: Snapshot)
    requires UsedWithinTotal(prior) && UsedWithinTotal(next)
  {
    WithinBorders(mode, prior, next) && SkippedUnchanged(mode, prior, next)
  }

  ghost predicate Honest(mode: Mode, chain: seq<Snapshot>) {
    Regular(chain) && forall a, b :: 0 <= a <= b < |chain| ==> SavesExactly(mode, chain[a], chain[b])
  }

  /**
   * For any change of the contract that keeps its operators: a save makes an exact mirror if and only
   * if no rows reach beyond their border and what is not fetched again did not change.
   */
  lemma {:induction false} SaveMirrorsExactly(mode: Mode, keys: map<KeyId, KeyRow>, prior: Snapshot, next: Snapshot)
    requires UsedWithinTotal(prior) && UsedWithinTotal(next) && |prior.operators| <= |next.operators|
    requires MirrorsKeys(mode, keys, prior)
    ensures MirrorsKeys(mode, NextKeys(mode, keys, prior, next), next)
            <==> SavesExactly(mode, prior, next)
  {
    if MirrorsKeys(mode, NextKeys(mode, keys, prior, next), next) {
      MirrorMeansUnchanged(mode, keys, prior, next);
    }
    if SavesExactly(mode, prior, next) {
      UnchangedMeansMirror(mode, keys, prior, next);
    }
  }

  lemma {:induction false} MirrorMeansUnchanged(mode: Mode, keys: map<KeyId, KeyRow>, prior: Snapshot, next: Snapshot)
    requires UsedWithinTotal(prior) && UsedWithinTotal(next) && |prior.operators| <= |next.operators|
    requires MirrorsKeys(mode, keys, prior) && MirrorsKeys(mode, NextKeys(mode, keys, prior, next), next)
    ensures SavesExactly(mode, prior, next)
  {
    forall i | 0 <= i < |next.operators|
      ensures Reach(mode, prior, next, i) == Bound(mode, next, i)
    {
      var id: KeyId := (i, Bound(mode, next, i));
      SaveReaches(mode, keys, prior, next, id);
      assert id !in NextKeys(mode, keys, prior, next);
    }
    forall id: KeyId | Skipped(mode, prior, next, id)
      ensures KeyAt(prior, id) == KeyAt(next, id)
    {
      SaveReaches(mode, keys, prior, next, id);
    }
  }

  lemma {:induction false} UnchangedMeansMirror(mode: Mode, keys: map<KeyId, KeyRow>, prior: Snapshot, next: Snapshot)
    requires UsedWithinTotal(prior) && UsedWithinTotal(next) && |prior.operators| <= |next.operators|
    requires MirrorsKeys(mode, keys, prior) && SavesExactly(mode, prior, next)
    ensures MirrorsKeys(mode, NextKeys(mode, keys, prior, next), next)
  {
    var keys' := NextKeys(mode, keys, prior, next);
    forall id: KeyId
      ensures id in keys' <==> InScope(mode, next, id)
      ensures id in keys' && HasKey(next, id) ==> keys'[id] == KeyAt(next, id)
    {
      SaveReaches(mode, keys, prior, next, id);
    }
  }

  /** A kept key changes at most its flag, and that exactly when the used count falls to it or below. */
  lemma {:induction false} SkippedKeyChanges(mode: Mode, prior: Snapshot, next: Snapshot, id: KeyId)
    requires Sound(prior) && Sound(next) && Evolves(prior, next)
    requires Skipped(mode, prior, next, id)
    ensures KeyAt(prior, id) == KeyAt(next, id) <==> id.1 < next.operators[id.0].used
  {
    assert UsedKeysKept(prior.operators[id.0], next.operators[id.0]);
    assert prior.operators[id.0].keys[id.1].used;
  }

  /** In keys mode rows never reach too far, and a stale flag is the only thing that can go wrong. */
  lemma {:induction false} KeysSaveExactly(prior: Snapshot, next: Snapshot)
    requires Sound(prior) && Sound(next) && Evolves(prior, next)
    ensures SavesExactly(Keys, prior, next) <==> Mirrorable(Keys, prior, next)
  {
    if SavesExactly(Keys, prior, next) {
      forall i | 0 <= i < |prior.operators|
        ensures OperatorMirrorable(Keys, prior.operators[i], next.operators[i])
      {
        if !OperatorMirrorable(Keys, prior.operators[i], next.operators[i]) {
          SkippedKeyChanges(Keys, prior, next, (i, next.operators[i].used));
        }
      }
    }
    if Mirrorable(Keys, prior, next) {
      forall id: KeyId | Skipped(Keys, prior, next, id)
        ensures KeyAt(prior, id) == KeyAt(next, id)
      {
        assert OperatorMirrorable(Keys, prior.operators[id.0], next.operators[id.0]);
        SkippedKeyChanges(Keys, prior, next, id);
      }
    }
  }

  /** In validators mode flags never go stale, and rows that reach too far are all that can go wrong. */
  lemma {:induction false} ValidatorsSaveExactly(prior: Snapshot, next: Snapshot)
    requires Sound(prior) && Sound(next) && Evolves(prior, next)
    ensures SavesExactly(Validators, prior, next) <==> Mirrorable(Validators, prior, next)
  {
    forall i | 0 <= i < |next.operators|
      ensures Reach(Validators, prior, next, i) == Bound(Validators, next, i)
              <==> (i < |prior.operators| ==> OperatorMirrorable(Validators, prior.operators[i], next.operators[i]))
    {
    }
    forall id: KeyId | Skipped(Validators, prior, next, id)
      ensures KeyAt(prior, id) == KeyAt(next, id)
    {
      SkippedKeyChanges(Validators, prior, next, id);
    }
  }

  /** Both modes at once. */
  lemma {:induction false} ContractSavesExactly(mode: Mode, prior: Snapshot, next: Snapshot)
    requires Sound(prior) && Sound(next) && Evolves(prior, next)
    ensures SavesExactly(mode, prior, next) <==> Mirrorable(mode, prior, next)
  {
    match mode
    case Keys => KeysSaveExactly(prior, next);
    case Validators => ValidatorsSaveExactly(prior, next);
  }

  /**
   * In keys mode a save is exact if and only if no operator with an unchanged reward address has its
   * used count fall while the formerly used keys stay: those rows keep their old used flag.
   */
  lemma {:induction false} KeysSaveIsExact(keys: map<KeyId, KeyRow>, prior: Snapshot, next: Snapshot)
    requires Sound(prior) && Sound(next) && Evolves(prior, next)
    requires MirrorsKeys(Keys, keys, prior)
    ensures MirrorsKeys(Keys, NextKeys(Keys, keys, prior, next), next) <==> Mirrorable(Keys, prior, next)
  {
    SaveMirrorsExactly(Keys, keys, prior, next);
    KeysSaveExactly(prior, next);
  }

  /**
   * In validators mode a save is exact if and only if every operator whose used count fell has no
   * unused keys left: otherwise formerly used rows stay behind.
   */
  lemma {:induction false} ValidatorsSaveIsExact(keys: map<KeyId, KeyRow>, prior: Snapshot, next: Snapshot)
    requires Sound(prior) && Sound(next) && Evolves(prior, next)
    requires MirrorsKeys(Validators, keys, prior)
    ensures MirrorsKeys(Validators, NextKeys(Validators, keys, prior, next), next) <==> Mirrorable(Validators, prior, next)
  {
    SaveMirrorsExactly(Validators, keys, prior, next);
    ValidatorsSaveExactly(prior, next);
  }

  /** Unchanged keys and counts are always saved exactly. */
  lemma {:induction false} SameKeysSaveExactly(mode: Mode, prior: Snapshot, next: Snapshot)
    requires UsedWithinTotal(prior) && UsedWithinTotal(next) && SameKeys(prior, next)
    ensures SavesExactly(mode, prior, next)
  {
    forall i | 0 <= i < |next.operators|
      ensures Reach(mode, prior, next, i) == Bound(mode, next, i)
    {
      assert prior.operators[i].used == next.operators[i].used;
    }
    forall id: KeyId | Skipped(mode, prior, next, id)
      ensures KeyAt(prior, id) == KeyAt(next, id)
    {
      assert prior.operators[id.0].keys == next.operators[id.0].keys;
    }
  }

  // ---------------------------------------------------------------- runs

  function SnapshotOf(chain: seq<Snapshot>, block: int): Snapshot
    requires -1 <= block < |chain|
  {
    if block == -1 then NO_CONTRACT else chain[block]
  }

  /**
   * The tables were saved at block s and the meta row is of block p, with the keys unchanged between
   * the two; -1 stands for empty tables.
   */
  ghost predicate Synced(mode: Mode, db: Db, chain: seq<Snapshot>, s: int, p: int) {
    && -1 <= s <= p < |chain|
    && (s == -1 <==> p == -1)
    && MirrorsKeys(mode, db.keys, SnapshotOf(chain, s))
    && MirrorsOperators(db.operators, SnapshotOf(chain, s))
    && db.metas == (if p == -1 then map[] else map[p as nat := StoredMeta(MetaAt(chain[p], p))])
    && (p != -1 ==> chain[s].keysOpIndex == chain[p].keysOpIndex)
  }

  lemma OneMeta(metas: map<nat, MetaRow>, p: nat, row: MetaRow)
    requires metas == map[p := row]
    ensures LatestMeta(metas) == Some(row)
  {
    FindAllContiguous(metas, p, [row]);
  }

  lemma NoMeta()
    ensures LatestMeta(map[]) == None
  {
  }

  lemma OperatorsUpserted(operators: map<nat, OperatorRow>, prior: Snapshot, next: Snapshot)
    requires MirrorsOperators(operators, prior) && |prior.operators| <= |next.operators|
    ensures MirrorsOperators(Upsert(operators, OperatorsAt(next), (o: OperatorRow) => o.index), next)
  {
    var id := (o: OperatorRow) => o.index;
    var rows := OperatorsAt(next);
    forall i: nat
      ensures i in Upsert(operators, rows, id) <==> i < |next.operators|
      ensures i < |next.operators| && i in Upsert(operators, rows, id) ==>
                Upsert(operators, rows, id)[i] == OperatorAt(next, i)
    {
      UpsertLookup(operators, rows, id, i);
      assert i < |rows| ==> id(rows[i]) == i;
    }
  }

  lemma {:induction false} SaveKeepsSynced(mode: Mode, db: Db, chain: seq<Snapshot>, s: int, p: int, block: nat)
    requires Regular(chain) && Synced(mode, db, chain, s, p) && p <= block < |chain|
    requires s != -1 ==> SavesExactly(mode, chain[s], chain[block])
    ensures
      var next := chain[block];
      var rows := UpdatedKeys(mode, OperatorsAt(SnapshotOf(chain, s)), next);
      Synced(mode, SaveDb(db, rows, OperatorsAt(next), MetaAt(next, block)), chain, block, block)
  {
    var prior, next := SnapshotOf(chain, s), chain[block];
    assert UsedWithinTotal(prior) && SavesExactly(mode, prior, next);
    OperatorsUpserted(db.operators, prior, next);
    SaveMirrorsExactly(mode, db.keys, prior, next);
  }

  lemma {:induction false} StoredMetaOf(mode: Mode, db: Db, chain: seq<Snapshot>, s: int, p: int)
    requires Synced(mode, db, chain, s, p)
    ensures LatestMeta(db.metas) == if p == -1 then None else Some(StoredMeta(MetaAt(chain[p], p)))
  {
    if p == -1 {
      NoMeta();
    } else {
      OneMeta(db.metas, p, StoredMeta(MetaAt(chain[p], p)));
    }
  }

  /** Every update keeps the tables in sync, and the stored block becomes the larger of the two. */
  lemma {:induction false} UpdateKeepsSynced(mode: Mode, db: Db, chain: seq<Snapshot>, s: int, p: int, block: nat)
    returns (s': int)
    requires Regular(chain) && Synced(mode, db, chain, s, p) && block < |chain|
    requires s != -1 && s <= block ==> SavesExactly(mode, chain[s], chain[block])
    ensures s' == s || s' == block
    ensures Synced(mode, UpdateDb(mode, db, chain[block], block).0, chain, s', Max(p, block))
  {
    StoredMetaOf(mode, db, chain, s, p);
    if p > block || (p != -1 && chain[p].keysOpIndex == chain[block].keysOpIndex) {
      s' := s;
    } else {
      s' := block;
      PreviousOperators(db.operators, SnapshotOf(chain, s));
      SaveKeepsSynced(mode, db, chain, s, p, block);
    }
  }

  datatype Step = Update(block: nat) | Clear

  predicate BlocksOf(chain: seq<Snapshot>, steps: seq<Step>) {
    forall i :: 0 <= i < |steps| && steps[i].Update? ==> steps[i].block < |chain|
  }

  function RunDb(mode: Mode, chain: seq<Snapshot>, steps: seq<Step>): Db
    requires (forall b :: 0 <= b < |chain| ==> UsedWithinTotal(chain[b])) && BlocksOf(chain, steps)
  {
    if steps == [] then EMPTY_DB
    else
      var before := RunDb(mode, chain, steps[..|steps| - 1]);
      match steps[|steps| - 1]
      case Update(block) => UpdateDb(mode, before, chain[block], block).0
      case Clear => EMPTY_DB
  }

  /** The highest block that was updated to since the last clearing; -1 when there is none. */
  function HighestBlock(steps: seq<Step>): int {
    if steps == [] then -1
    else
      match steps[|steps| - 1]
      case Update(block) => Max(HighestBlock(steps[..|steps| - 1]), block)
      case Clear => -1
  }

  lemma {:induction false} RunStaysSynced(mode: Mode, chain: seq<Snapshot>, steps: seq<Step>) returns (s: int)
    requires Honest(mode, chain) && BlocksOf(chain, steps)
    ensures Synced(mode, RunDb(mode, chain, steps), chain, s, HighestBlock(steps))
    decreases |steps|
  {
    if steps == [] {
      s := -1;
    } else {
      s := RunStaysSynced(mode, chain, steps[..|steps| - 1]);
      match steps[|steps| - 1]
      case Update(block) =>
        s := UpdateKeepsSynced(mode, RunDb(mode, chain, steps[..|steps| - 1]), chain, s, HighestBlock(steps[..|steps| - 1]), block);
      case Clear =>
        s := -1;
    }
  }

  /** The operator table has the operators of the block, with its totals and used counts. */
  ghost predicate CountsOperators(operators: map<nat, OperatorRow>, snap: Snapshot) {
    && (forall i: nat :: i in operators <==> i < |snap.operators|)
    && (forall i: nat :: i < |snap.operators| && i in operators ==>
          && operators[i].index == i
          && operators[i].totalSigningKeys == |snap.operators[i].keys|
          && operators[i].usedSigningKeys == snap.operators[i].used)
  }

  /**
   * One meta row, of the highest block since the last clearing, a key table that is exactly the contract's
   * keys in scope at that block, and the operators with their totals and used counts; nothing when there is
   * no such block.  The other operator columns are the subject of RegistryOperators.
   */
  ghost predicate RunIsExact(mode: Mode, chain: seq<Snapshot>, steps: seq<Step>)
    requires Regular(chain) && BlocksOf(chain, steps)
  {
    var db, p := RunDb(mode, chain, steps), HighestBlock(steps);
    && -1 <= p < |chain|
    && (p == -1 ==> db == EMPTY_DB)
    && (p != -1 ==> && db.metas == map[p as nat := StoredMeta(MetaAt(chain[p], p))]
                    && MirrorsKeys(mode, db.keys, chain[p])
                    && CountsOperators(db.operators, chain[p]))
  }

  /** Every run of updates and clearings, in any block order, ends with exact keys and counts. */
  lemma {:induction false} RunMirrors(mode: Mode, chain: seq<Snapshot>, steps: seq<Step>)
    requires Honest(mode, chain) && BlocksOf(chain, steps)
    ensures RunIsExact(mode, chain, steps)
  {
    var s := RunStaysSynced(mode, chain, steps);
    var db, p := RunDb(mode, chain, steps), HighestBlock(steps);
    if p == -1 {
      assert db.keys == map[] && db.operators == map[];
    } else {
      assert SameKeys(chain[s], chain[p]);
      forall id: KeyId
        ensures id in db.keys <==> InScope(mode, chain[p], id)
        ensures id in db.keys && HasKey(chain[p], id) ==> db.keys[id] == KeyAt(chain[p], id)
      {
        assert InScope(mode, chain[s], id) <==> InScope(mode, chain[p], id);
      }
    }
  }

  /** What an update to a later block with another keysOpIndex leaves in the key table. */
  lemma {:induction false} UpdateSaves(mode: Mode, db: Db, chain: seq<Snapshot>, s: nat, block: nat)
    requires Regular(chain) && Synced(mode, db, chain, s, s) && s <= block < |chain|
    requires chain[s].keysOpIndex != chain[block].keysOpIndex
    ensures UpdateDb(mode, db, chain[block], block).0.keys == NextKeys(mode, db.keys, chain[s], chain[block])
  {
    StoredMetaOf(mode, db, chain, s, s);
    PreviousOperators(db.operators, chain[s]);
  }

  /** One update from empty tables is always exact. */
  lemma {:induction false} FirstUpdate(mode: Mode, chain: seq<Snapshot>, a: nat)
    requires Regular(chain) && a < |chain|
    ensures Synced(mode, UpdateDb(mode, EMPTY_DB, chain[a], a).0, chain, a, a)
  {
    var s := UpdateKeepsSynced(mode, EMPTY_DB, chain, -1, -1, a);
  }

  lemma {:induction false} RunOneMore(mode: Mode, chain: seq<Snapshot>, steps: seq<Step>, block: nat, longer: seq<Step>)
    requires Regular(chain) && BlocksOf(chain, steps) && block < |chain| && longer == steps + [Update(block)]
    ensures BlocksOf(chain, longer)
    ensures RunDb(mode, chain, longer) == UpdateDb(mode, RunDb(mode, chain, steps), chain[block], block).0
    ensures HighestBlock(longer) == Max(HighestBlock(steps), block)
  {
    assert longer[..|longer| - 1] == steps;
  }

  lemma {:induction false} OneUpdate(mode: Mode, chain: seq<Snapshot>, a: nat)
    requires Regular(chain) && a < |chain|
    ensures BlocksOf(chain, [Update(a)]) && HighestBlock([Update(a)]) == a
    ensures RunDb(mode, chain, [Update(a)]) == UpdateDb(mode, EMPTY_DB, chain[a], a).0
    ensures Synced(mode, RunDb(mode, chain, [Update(a)]), chain, a, a)
  {
    assert [Update(a)][..0] == [];
    FirstUpdate(mode, chain, a);
  }

  lemma {:induction false} TwoUpdates(mode: Mode, chain: seq<Snapshot>, a: nat, b: nat)
    requires Regular(chain) && a <= b < |chain| && chain[a].keysOpIndex != chain[b].keysOpIndex
    ensures BlocksOf(chain, [Update(a), Update(b)]) && HighestBlock([Update(a), Update(b)]) == b
    ensures BlocksOf(chain, [Update(a)]) && MirrorsKeys(mode, RunDb(mode, chain, [Update(a)]).keys, chain[a])
    ensures RunDb(mode, chain, [Update(a), Update(b)]).keys
            == NextKeys(mode, RunDb(mode, chain, [Update(a)]).keys, chain[a], chain[b])
  {
    OneUpdate(mode, chain, a);
    UpdateSaves(mode, RunDb(mode, chain, [Update(a)]), chain, a, b);
    RunOneMore(mode, chain, [Update(a)], b, [Update(a), Update(b)]);
  }

  /** Two blocks that a save does not get from one to the other spoil the run of these two updates. */
  lemma {:induction false} TwoUpdatesMiss(mode: Mode, chain: seq<Snapshot>, a: nat, b: nat)
    requires Regular(chain) && a <= b < |chain| && !SavesExactly(mode, chain[a], chain[b])
    ensures BlocksOf(chain, [Update(a), Update(b)]) && !RunIsExact(mode, chain, [Update(a), Update(b)])
  {
    if SameKeys(chain[a], chain[b]) {
      SameKeysSaveExactly(mode, chain[a], chain[b]);
    }
    TwoUpdates(mode, chain, a, b);
    SaveMirrorsExactly(mode, RunDb(mode, chain, [Update(a)]).keys, chain[a], chain[b]);
  }

  /** The exact condition: all runs end with exact keys and counts if and only if every two blocks save exactly. */
  lemma {:induction false} RunsAreExact(mode: Mode, chain: seq<Snapshot>)
    requires Regular(chain)
    ensures (forall steps | BlocksOf(chain, steps) :: RunIsExact(mode, chain, steps)) <==> Honest(mode, chain)
  {
    if Honest(mode, chain) {
      forall steps | BlocksOf(chain, steps)
        ensures RunIsExact(mode, chain, steps)
      {
        RunMirrors(mode, chain, steps);
      }
    } else {
      var a, b :| 0 <= a <= b < |chain| && !SavesExactly(mode, chain[a], chain[b]);
      TwoUpdatesMiss(mode, chain, a, b);
    }
  }

  /**
   * For a contract that keeps its used keys: all runs end with exact keys and counts if and only if between
   * no two blocks a used count falls in the way that the mode misses.
   */
  lemma {:induction false} RunsOfContract(mode: Mode, chain: seq<Snapshot>)
    requires Plausible(chain)
    ensures (forall steps | BlocksOf(chain, steps) :: RunIsExact(mode, chain, steps))
            <==> forall a, b :: 0 <= a <= b < |chain| ==> Mirrorable(mode, chain[a], chain[b])
  {
    RunsAreExact(mode, chain);
    forall a, b | 0 <= a <= b < |chain|
      ensures SavesExactly(mode, chain[a], chain[b]) <==> Mirrorable(mode, chain[a], chain[b])
    {
      ContractSavesExactly(mode, chain[a], chain[b]);
    }
  }

  /** Incremental updates give the key table that one update from empty tables gives. */
  lemma {:induction false} IncrementalEqualsResync(mode: Mode, chain: seq<Snapshot>, steps: seq<Step>)
    requires Honest(mode, chain) && BlocksOf(chain, steps)
    requires HighestBlock(steps) != -1
    ensures -1 <= HighestBlock(steps) < |chain|
    ensures RunDb(mode, chain, steps).keys
            == UpdateDb(mode, EMPTY_DB, chain[HighestBlock(steps)], HighestBlock(steps)).0.keys
  {
    RunMirrors(mode, chain, steps);
    var p := HighestBlock(steps);
    var once := [Update(p)];
    RunMirrors(mode, chain, once);
    OneUpdate(mode, chain, p);
    MirrorIsUnique(mode, RunDb(mode, chain, steps).keys, RunDb(mode, chain, once).keys, chain[p]);
  }

  lemma MirrorIsUnique(mode: Mode, a: map<KeyId, KeyRow>, b: map<KeyId, KeyRow>, snap: Snapshot)
    requires UsedWithinTotal(snap) && MirrorsKeys(mode, a, snap) && MirrorsKeys(mode, b, snap)
    ensures a == b
  {
    assert forall id :: id in a ==> HasKey(snap, id);
  }

  /** An operator whose two keys are used up to the count. */
  function TwoKeys(used: nat): NodeOperator {
    NodeOperator("a", used, Details(true, "", 0, 0), [SigningKey("k0", "s0", 0 < used), SigningKey("k1", "s1", 1 < used)])
  }

  lemma {:induction false} TwoKeysFall(mode: Mode, prior: Snapshot, next: Snapshot)
    requires prior.operators == [TwoKeys(2)] && next.operators == [TwoKeys(1)]
    ensures Sound(prior) && Sound(next) && Evolves(prior, next) && !Mirrorable(mode, prior, next)
  {
    assert !OperatorMirrorable(mode, prior.operators[0], next.operators[0]);
  }

  /**
   * A used count that falls from two to one of two keys is missed in both modes: the used-keys table
   * keeps the second row, and the table of all keys goes on calling the second key used.
   */
  lemma {:induction false} FallenUsedCountIsMissed(mode: Mode, keys: map<KeyId, KeyRow>, prior: Snapshot, next: Snapshot)
    requires prior.operators == [TwoKeys(2)] && next.operators == [TwoKeys(1)]
    requires UsedWithinTotal(prior) && MirrorsKeys(mode, keys, prior)
    ensures UsedWithinTotal(next) && !MirrorsKeys(mode, NextKeys(mode, keys, prior, next), next)
  {
    TwoKeysFall(mode, prior, next);
    SaveMirrorsExactly(mode, keys, prior, next);
    ContractSavesExactly(mode, prior, next);
  }

  /** An operator with one used key. */
  function OneKey(rewardAddress: string, key: string): NodeOperator {
    NodeOperator(rewardAddress, 1, Details(true, "", 0, 0), [SigningKey(key, "s", true)])
  }

  /**
   * A reward address that changes, with the key, and then changes back: each step keeps the used keys of
   * an unchanged address, but a save over a mirror of the first block misses the new key.
   */
  lemma {:induction false} AddressThatReturnsIsMissed(mode: Mode, first: Snapshot, middle: Snapshot, last: Snapshot)
    requires first.operators == [OneKey("a", "old")] && middle.operators == [OneKey("b", "new")]
    requires last.operators == [OneKey("a", "new")]
    ensures Sound(first) && Sound(middle) && Sound(last) && Evolves(first, middle) && Evolves(middle, last)
    ensures !SavesExactly(mode, first, last)
  {
    assert Lower("a")[0] != Lower("b")[0];
    assert first.operators[0].keys[0].key[0] != last.operators[0].keys[0].key[0];
    assert Skipped(mode, first, last, (0, 0));
  }
}
