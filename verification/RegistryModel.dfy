/**
 * The registry's tables, the contract they mirror, and the update as a function on the tables.
 *
 * The contract is a list of snapshots, one per block number.  An update reads one snapshot and
 * refetches, for each operator, only the keys above the used keys of the operator stored before.
 */
module RegistryModel {
  import opened Common
  import opened Utils

  // ---------------------------------------------------------------- rows and tables

  /** Operator fields that the update copies but never looks at. */
  datatype Details = Details(active: bool, name: string, stakingLimit: nat, stoppedValidators: nat)

  datatype OperatorRow = OperatorRow(index: nat, rewardAddress: string, totalSigningKeys: nat,
                                     usedSigningKeys: nat, details: Details)

  datatype KeyRow = KeyRow(operatorIndex: nat, index: nat, key: string, depositSignature: string, used: bool)

  datatype MetaRow = MetaRow(blockNumber: nat, blockHash: string, keysOpIndex: int, timestamp: int)

  /** A key's primary key: operator index, key index. */
  type KeyId = (nat, nat)

  datatype Db = Db(keys: map<KeyId, KeyRow>, operators: map<nat, OperatorRow>, metas: map<nat, MetaRow>)

  const EMPTY_DB: Db := Db(map[], map[], map[])

  function IdOfKey(row: KeyRow): KeyId {
    (row.operatorIndex, row.index)
  }

  // ---------------------------------------------------------------- the contract at one block

  datatype SigningKey = SigningKey(key: string, depositSignature: string, used: bool)

  datatype NodeOperator = NodeOperator(rewardAddress: string, used: nat, details: Details, keys: seq<SigningKey>)

  datatype Snapshot = Snapshot(blockHash: string, timestamp: int, keysOpIndex: int, operators: seq<NodeOperator>)

  function OperatorAt(snap: Snapshot, i: nat): OperatorRow
    requires i < |snap.operators|
  {
    var o := snap.operators[i];
    OperatorRow(i, o.rewardAddress, |o.keys|, o.used, o.details)
  }

  function OperatorsAt(snap: Snapshot): (rows: seq<OperatorRow>)
    ensures |rows| == |snap.operators|
    ensures forall i :: 0 <= i < |rows| ==> rows[i] == OperatorAt(snap, i)
  {
    seq(|snap.operators|, i requires 0 <= i < |snap.operators| => OperatorAt(snap, i))
  }

  predicate HasKey(snap: Snapshot, id: KeyId) {
    id.0 < |snap.operators| && id.1 < |snap.operators[id.0].keys|
  }

  function KeyAt(snap: Snapshot, id: KeyId): KeyRow
    requires HasKey(snap, id)
  {
    var k := snap.operators[id.0].keys[id.1];
    KeyRow(id.0, id.1, k.key, k.depositSignature, k.used)
  }

  /** The row holds each column of this key of the contract under its own name. */
  predicate HasColumns(row: KeyRow, operatorIndex: nat, index: nat, k: SigningKey) {
    && row.operatorIndex == operatorIndex
    && row.index == index
    && row.key == k.key
    && row.depositSignature == k.depositSignature
    && row.used == k.used
  }

  function MetaAt(snap: Snapshot, block: nat): MetaRow {
    MetaRow(block, snap.blockHash, snap.keysOpIndex, snap.timestamp)
  }

  // ---------------------------------------------------------------- comparing

  function LowerChar(c: char): (r: char)
    ensures r as int == if 'A' <= c <= 'Z' then c as int + 32 else c as int
  {
    if 'A' <= c <= 'Z' then c - 'A' + 'a' else c
  }

  function Lower(s: string): (r: string)
    ensures |r| == |s|
    ensures forall i :: 0 <= i < |s| ==> r[i] as int == if 'A' <= s[i] <= 'Z' then s[i] as int + 32 else s[i] as int
  {
    seq(|s|, i requires 0 <= i < |s| => LowerChar(s[i]))
  }

  /** The meta row as the entity's constructor stores it. */
  function StoredMeta(m: MetaRow): MetaRow {
    m.(blockHash := Lower(m.blockHash))
  }

  predicate CompareMeta(one: Option<MetaRow>, two: Option<MetaRow>) {
    one.Some? && two.Some? && one.value.keysOpIndex == two.value.keysOpIndex
  }

  predicate CompareOperators(one: Option<OperatorRow>, two: Option<OperatorRow>) {
    one.Some? && two.Some? && Lower(one.value.rewardAddress) == Lower(two.value.rewardAddress)
  }

  // ---------------------------------------------------------------- which keys an update fetches

  /** Keys mirrors every key of an operator, Validators the used ones. */
  datatype Mode = Keys | Validators

  function ToIndex(mode: Mode, operator: OperatorRow): nat {
    match mode
    case Keys => operator.totalSigningKeys
    case Validators => operator.usedSigningKeys
  }

  function FromIndex(mode: Mode, prev: Option<OperatorRow>, curr: OperatorRow): (from: nat)
    ensures from <= ToIndex(mode, curr)
    ensures
      var to := match mode case Keys => curr.totalSigningKeys case Validators => curr.usedSigningKeys;
      if prev.Some? && Lower(prev.value.rewardAddress) == Lower(curr.rewardAddress) && prev.value.usedSigningKeys <= to
      then from == prev.value.usedSigningKeys
      else from == 0
  {
    var unchangedKeysMaxIndex := if CompareOperators(prev, Some(curr)) then prev.value.usedSigningKeys else 0;
    if unchangedKeysMaxIndex <= ToIndex(mode, curr) then unchangedKeysMaxIndex else 0
  }

  /** What rejects a fetch: the borders, or a contract call for an operator or a key that is not there. */
  datatype FetchError = FromAboveTo | NoSuchOperator | NoSuchKey

  function TotalOf(snap: Snapshot, operatorIndex: nat): nat {
    if operatorIndex < |snap.operators| then |snap.operators[operatorIndex].keys| else 0
  }

  /** The keys [fromIndex, toIndex) of one operator; -1 stands for all of them. */
  function FetchKeys(snap: Snapshot, operatorIndex: nat, fromIndex: nat, toIndex: int): (r: Result<seq<KeyRow>, FetchError>)
    ensures
      var total := TotalOf(snap, operatorIndex);
      var to := if toIndex == -1 then total else toIndex;
      && (r.Ok? <==> fromIndex <= to && (to <= total || fromIndex == to)
                     && (toIndex == -1 ==> operatorIndex < |snap.operators|))
      && (r.Ok? ==> |r.value| == to - fromIndex
                    && forall j :: 0 <= j < |r.value| ==> r.value[j] == KeyAt(snap, (operatorIndex, fromIndex + j)))
    ensures r.Ok? ==> forall j :: 0 <= j < |r.value| ==>
              && operatorIndex < |snap.operators| && fromIndex + j < |snap.operators[operatorIndex].keys|
              && HasColumns(r.value[j], operatorIndex, fromIndex + j, snap.operators[operatorIndex].keys[fromIndex + j])
    ensures fromIndex > toIndex && toIndex != -1 ==> r == Err(FetchError.FromAboveTo)
    ensures toIndex == -1 && operatorIndex >= |snap.operators| ==> r == Err(NoSuchOperator)
    ensures fromIndex < toIndex && TotalOf(snap, operatorIndex) < toIndex ==> r == Err(NoSuchKey)
  {
    if fromIndex > toIndex && toIndex != -1 then Err(FetchError.FromAboveTo)
    else if toIndex == -1 && operatorIndex >= |snap.operators| then Err(NoSuchOperator)
    else
      var total := TotalOf(snap, operatorIndex);
      var to := if toIndex == -1 then total else toIndex;
      if to < fromIndex then Err(FetchError.FromAboveTo)
      else if fromIndex < to && total < to then Err(NoSuchKey)
      else Ok(MapRange(i requires 0 <= i < total => KeyAt(snap, (operatorIndex, i)), fromIndex, to))
  }

  /** No operator has used more keys than it has. */
  predicate UsedWithinTotal(snap: Snapshot) {
    forall i :: 0 <= i < |snap.operators| ==> snap.operators[i].used <= |snap.operators[i].keys|
  }

  function KeysToFetch(mode: Mode, previous: seq<OperatorRow>, snap: Snapshot, i: nat): seq<KeyRow>
    requires UsedWithinTotal(snap) && i < |snap.operators|
  {
    var curr := OperatorAt(snap, i);
    FetchKeys(snap, i, FromIndex(mode, At(previous, i), curr), ToIndex(mode, curr)).value
  }

  /** The fetched keys of all operators, in operator order. */
  function UpdatedKeys(mode: Mode, previous: seq<OperatorRow>, snap: Snapshot): seq<KeyRow>
    requires UsedWithinTotal(snap)
  {
    Flatten(seq(|snap.operators|, i requires 0 <= i < |snap.operators| => KeysToFetch(mode, previous, snap, i)))
  }

  // ---------------------------------------------------------------- the tables after a save

  predicate RemovedBy(operator: OperatorRow, id: KeyId) {
    operator.index == id.0 && id.1 >= operator.totalSigningKeys
  }

  predicate Removed(operators: seq<OperatorRow>, id: KeyId) {
    exists j :: 0 <= j < |operators| && RemovedBy(operators[j], id)
  }

  function DeleteAbove(keys: map<KeyId, KeyRow>, operators: seq<OperatorRow>): map<KeyId, KeyRow> {
    map id | id in keys && !Removed(operators, id) :: keys[id]
  }

  /** Insert the rows one after the other; a row with a known id replaces the old one. */
  function Upsert<K, V>(m: map<K, V>, rows: seq<V>, id: V -> K): map<K, V> {
    if rows == [] then m
    else
      var last := rows[|rows| - 1];
      Upsert(m, rows[..|rows| - 1], id)[id(last) := last]
  }

  lemma {:induction false} UpsertConcat<K, V>(m: map<K, V>, a: seq<V>, b: seq<V>, id: V -> K)
    ensures Upsert(m, a + b, id) == Upsert(Upsert(m, a, id), b, id)
    decreases |b|
  {
    if b == [] {
      assert a + b == a;
    } else {
      var n := |b| - 1;
      UpsertConcat(m, a, b[..n], id);
      assert (a + b)[..|a + b| - 1] == a + b[..n];
      assert (a + b)[|a + b| - 1] == b[n];
    }
  }

  /** After an upsert an id is held by an old row or by a new one, and a new one wins. */
  lemma {:induction false} UpsertLookup<K, V>(m: map<K, V>, rows: seq<V>, id: V -> K, x: K)
    ensures x in Upsert(m, rows, id) <==> x in m || exists j :: 0 <= j < |rows| && id(rows[j]) == x
    ensures (exists j :: 0 <= j < |rows| && id(rows[j]) == x) ==>
              exists j :: 0 <= j < |rows| && id(rows[j]) == x && Upsert(m, rows, id)[x] == rows[j]
    ensures x in m && (forall j :: 0 <= j < |rows| ==> id(rows[j]) != x) ==> Upsert(m, rows, id)[x] == m[x]
    decreases |rows|
  {
    if rows != [] {
      var n := |rows| - 1;
      var before := rows[..n];
      UpsertLookup(m, before, id, x);
      assert forall j :: 0 <= j < n ==> before[j] == rows[j];
      if id(rows[n]) == x {
      } else if exists j :: 0 <= j < n && id(rows[j]) == x {
        var j :| 0 <= j < n && id(before[j]) == x && Upsert(m, before, id)[x] == before[j];
        assert rows[j] == before[j];
      }
    }
  }

  function SaveDb(db: Db, updatedKeys: seq<KeyRow>, operators: seq<OperatorRow>, meta: MetaRow): Db {
    Db(Upsert(DeleteAbove(db.keys, operators), updatedKeys, IdOfKey),
       Upsert(db.operators, operators, (o: OperatorRow) => o.index),
       map[meta.blockNumber := StoredMeta(meta)])
  }

  // ---------------------------------------------------------------- ordered reads

  ghost predicate IsLeast(k: nat, ks: set<nat>) {
    k in ks && forall j :: j in ks ==> k <= j
  }

  lemma {:induction false} LeastExists(ks: set<nat>)
    requires ks != {}
    ensures exists k :: IsLeast(k, ks)
    decreases ks
  {
    var k :| k in ks;
    var rest := ks - {k};
    if rest == {} {
      assert ks == {k};
      assert IsLeast(k, ks);
    } else {
      LeastExists(rest);
      var l :| IsLeast(l, rest);
      assert ks == rest + {k};
      assert IsLeast(if k < l then k else l, ks);
    }
  }

  function Least(ks: set<nat>): (k: nat)
    requires ks != {}
    ensures IsLeast(k, ks)
  {
    LeastExists(ks);
    assert forall k :: IsLeast(k, ks) ==> k in ks && forall j :: j in ks ==> k <= j;
    var k :| k in ks && forall j :: j in ks ==> k <= j;
    k
  }

  /** All rows in ascending order of their key. */
  function FindAll<V>(m: map<nat, V>): seq<V>
    decreases m.Keys
  {
    if m.Keys == {} then []
    else
      var k := Least(m.Keys);
      [m[k]] + FindAll(m - {k})
  }

  lemma {:induction false} FindAllContiguous<V>(m: map<nat, V>, lo: nat, rows: seq<V>)
    requires forall k: nat :: k in m <==> lo <= k < lo + |rows|
    requires forall i :: 0 <= i < |rows| ==> m[lo + i] == rows[i]
    ensures FindAll(m) == rows
    decreases |rows|
  {
    if rows != [] {
      assert lo in m.Keys;
      assert Least(m.Keys) == lo;
      var rest := m - {lo};
      FindAllContiguous(rest, lo + 1, rows[1..]);
    } else {
      assert m.Keys == {};
    }
  }

  /** The meta row of the highest block. */
  function LatestMeta(metas: map<nat, MetaRow>): Option<MetaRow> {
    var rows := FindAll(metas);
    if rows == [] then None else Some(rows[|rows| - 1])
  }

  // ---------------------------------------------------------------- the update

  function UpdateDb(mode: Mode, db: Db, snap: Snapshot, block: nat): (Db, Option<MetaRow>)
    requires UsedWithinTotal(snap)
  {
    var prevMeta, currMeta := LatestMeta(db.metas), MetaAt(snap, block);
    if prevMeta.Some? && prevMeta.value.blockNumber > block then (db, None)
    else if CompareMeta(prevMeta, Some(currMeta)) then (db.(metas := map[block := StoredMeta(currMeta)]), None)
    else
      var updatedKeys := UpdatedKeys(mode, FindAll(db.operators), snap);
      (SaveDb(db, updatedKeys, OperatorsAt(snap), currMeta), Some(currMeta))
  }
}
