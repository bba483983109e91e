/**
 * The executors that check keys one by one or on a pool of workers.  The signature check itself and
 * the serializer are parameters, so every statement holds for any of them.
 */
module KeyExecutors {
  import opened Common
  import opened Utils

  /** A serialized key with its position in its partition. */
  type Item = (string, nat)

  /** A position with the verdict on the key there. */
  type Answer = (nat, bool)

  const MIN_CHUNK_SIZE := 100

  function SingleThreaded<K>(keys: seq<K>, valid: K -> bool): (results: seq<(K, bool)>)
    ensures |results| == |keys|
    ensures forall i :: 0 <= i < |keys| ==> results[i] == (keys[i], valid(keys[i]))
  {
    seq(|keys|, i requires 0 <= i < |keys| => (keys[i], valid(keys[i])))
  }

  lemma SingleThreadedAppend<K>(a: seq<K>, b: seq<K>, valid: K -> bool)
    ensures SingleThreaded(a + b, valid) == SingleThreaded(a, valid) + SingleThreaded(b, valid)
  {
  }

  // ---------------------------------------------------------------- one partition on one worker

  function Worker<K>(items: seq<Item>, deserialize: string -> K, valid: K -> bool): seq<Answer> {
    seq(|items|, i requires 0 <= i < |items| => (items[i].1, valid(deserialize(items[i].0))))
  }

  function ItemsOf<K>(partition: seq<K>, serialize: K -> string): seq<Item> {
    seq(|partition|, i requires 0 <= i < |partition| => (serialize(partition[i]), i))
  }

  /** The verdict of the first answer for this position. */
  function Find(answers: seq<Answer>, index: nat): Option<bool> {
    if answers == [] then None
    else if answers[0].0 == index then Some(answers[0].1)
    else Find(answers[1..], index)
  }

  /** Every key of the partition with the verdict found for its position, or the failed assertion. */
  function Collect<K>(partition: seq<K>, answers: seq<Answer>): Result<seq<(K, bool)>, string> {
    if forall i :: 0 <= i < |partition| ==> Find(answers, i).Some? then
      Ok(seq(|partition|, i requires 0 <= i < |partition| => (partition[i], Find(answers, i).value)))
    else
      Err("Empty key result found. Halting.")
  }

  /** The check as a worker does it: on what is left of the key after serializing. */
  function Shipped<K>(serialize: K -> string, deserialize: string -> K, valid: K -> bool): K -> bool {
    k => valid(deserialize(serialize(k)))
  }

  /** The same answers in any order. */
  ghost predicate Permuted(a: seq<Answer>, b: seq<Answer>) {
    multiset(a) == multiset(b)
  }

  /** What is found is an answer that was given, and an answer that was given is found. */
  lemma {:induction false} FindIsAnswer(answers: seq<Answer>, index: nat, given: bool)
    ensures Find(answers, index).Some? ==> (index, Find(answers, index).value) in answers
    ensures (index, given) in answers ==> Find(answers, index).Some?
    decreases |answers|
  {
    if answers != [] {
      FindIsAnswer(answers[1..], index, given);
      assert answers == [answers[0]] + answers[1..];
    }
  }

  lemma PermutedMembers(a: seq<Answer>, b: seq<Answer>, answer: Answer)
    requires Permuted(a, b)
    ensures answer in a <==> answer in b
  {
    assert answer in a <==> answer in multiset(a);
    assert answer in b <==> answer in multiset(b);
  }

  lemma {:induction false} FindsOwnVerdict<K>(partition: seq<K>, serialize: K -> string, deserialize: string -> K,
                                              valid: K -> bool, answers: seq<Answer>, i: nat)
    requires i < |partition|
    requires Permuted(answers, Worker(ItemsOf(partition, serialize), deserialize, valid))
    ensures Find(answers, i) == Some(valid(deserialize(serialize(partition[i]))))
  {
    var sent := Worker(ItemsOf(partition, serialize), deserialize, valid);
    var own := (i, valid(deserialize(serialize(partition[i]))));
    assert sent[i] == own;
    PermutedMembers(answers, sent, own);
    FindIsAnswer(answers, i, own.1);
    var found := (i, Find(answers, i).value);
    PermutedMembers(answers, sent, found);
    var j :| 0 <= j < |sent| && sent[j] == found;
  }

  /** However the worker orders its answers, each key gets the verdict on itself. */
  lemma {:induction false} CollectIgnoresOrder<K>(partition: seq<K>, serialize: K -> string,
                                                  deserialize: string -> K, valid: K -> bool, answers: seq<Answer>)
    requires Permuted(answers, Worker(ItemsOf(partition, serialize), deserialize, valid))
    ensures Collect(partition, answers) == Ok(SingleThreaded(partition, Shipped(serialize, deserialize, valid)))
  {
    forall i | 0 <= i < |partition|
      ensures Find(answers, i) == Some(valid(deserialize(serialize(partition[i]))))
    {
      FindsOwnVerdict(partition, serialize, deserialize, valid, answers, i);
    }
    assert Collect(partition, answers).value == SingleThreaded(partition, Shipped(serialize, deserialize, valid));
  }

  lemma {:induction false} NotAnswered(answers: seq<Answer>, i: nat)
    requires forall j :: 0 <= j < |answers| ==> answers[j].0 != i
    ensures Find(answers, i).None?
    decreases |answers|
  {
    if answers != [] {
      NotAnswered(answers[1..], i);
    }
  }

  /** An answer that is missing for any key of the partition fails the whole. */
  lemma {:induction false} MissingAnswerFails<K>(partition: seq<K>, answers: seq<Answer>, i: nat)
    requires i < |partition| && forall j :: 0 <= j < |answers| ==> answers[j].0 != i
    ensures Collect(partition, answers) == Err("Empty key result found. Halting.")
  {
    NotAnswered(answers, i);
  }

  /** Both executors agree on a list exactly when serializing changes no verdict on a key in it. */
  lemma SameAsSingleThreaded<K>(keys: seq<K>, serialize: K -> string, deserialize: string -> K, valid: K -> bool)
    ensures SingleThreaded(keys, Shipped(serialize, deserialize, valid)) == SingleThreaded(keys, valid) <==>
            forall k :: k in keys ==> valid(deserialize(serialize(k))) == valid(k)
  {
    var shipped := SingleThreaded(keys, Shipped(serialize, deserialize, valid));
    var direct := SingleThreaded(keys, valid);
    if shipped == direct {
      forall k | k in keys
        ensures valid(deserialize(serialize(k))) == valid(k)
      {
        var i :| 0 <= i < |keys| && keys[i] == k;
        assert shipped[i] == direct[i];
      }
    }
  }

  // ---------------------------------------------------------------- the pool

  class MultiThreadedKeyValidatorExecutor {
    /** The number of threads of the pool, once there is one. */
    var threadPool: Option<nat>

    constructor ()
      ensures threadPool == None
    {
      threadPool := None;
    }

    /**
     * `threads` is the size a new pool starts with, and `run(p, items)` is what the pool answers to
     * the items of partition p: the worker's answers in any order.  No key is left without an
     * answer, so the assertion "Empty key result found" never fails.
     */
    method ValidateKeys<K>(keys: seq<K>, threads: nat, run: (nat, seq<Item>) -> seq<Answer>, serialize: K -> string,
                           deserialize: string -> K, valid: K -> bool)
      returns (results: seq<(K, bool)>)
      requires forall p, items :: Permuted(run(p, items), Worker(items, deserialize, valid))
      modifies this
      ensures threadPool == if old(threadPool).Some? then old(threadPool) else Some(threads)
      ensures results == SingleThreaded(keys, Shipped(serialize, deserialize, valid))
      ensures |results| == |keys|
      ensures forall i :: 0 <= i < |keys| ==> results[i] == (keys[i], valid(deserialize(serialize(keys[i]))))
    {
      if threadPool.None? {
        threadPool := Some(threads);
      }
      var partitions := Partition(keys, threadPool.value, MIN_CHUNK_SIZE);
      ghost var check := Shipped(serialize, deserialize, valid);
      results := [];
      for p := 0 to |partitions|
        invariant threadPool == if old(threadPool).Some? then old(threadPool) else Some(threads)
        invariant results == SingleThreaded(Flatten(partitions[..p]), check)
      {
        var answers := run(p, ItemsOf(partitions[p], serialize));
        CollectIgnoresOrder(partitions[p], serialize, deserialize, valid, answers);
        var collected := Collect(partitions[p], answers);
        FlattenAppend(partitions[..p], partitions[p]);
        SingleThreadedAppend(Flatten(partitions[..p]), partitions[p], check);
        assert partitions[..p + 1] == partitions[..p] + [partitions[p]];
        results := results + collected.value;
      }
      assert partitions[..|partitions|] == partitions;
    }

    method Destroy()
      modifies this
      ensures threadPool == None
    {
      threadPool := None;
    }
  }
}
