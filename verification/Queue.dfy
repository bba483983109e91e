/** The first-in first-out queue of the execution package. */
module Queue {
  import opened Common

  /** The bitwise-or-zero conversion to a signed 32-bit integer. */
  function ToInt32(n: int): (r: int)
    ensures -0x8000_0000 <= r < 0x8000_0000
    ensures (r - n) % 0x1_0000_0000 == 0
  {
    (n + 0x8000_0000) % 0x1_0000_0000 - 0x8000_0000
  }

  /** How many elements one dequeueMultiple(batch) takes at most; never less than one. */
  function BatchLimit(batch: int): (limit: nat)
    ensures limit >= 1
    ensures 0 < batch < 0x8000_0000 ==> limit == batch
    ensures limit == if ToInt32(batch) > 0 then ToInt32(batch) else 1
  {
    if ToInt32(batch) > 0 then ToInt32(batch) else 1
  }

  function Taken<T>(store: seq<T>, batch: int): (r: seq<T>)
    ensures |r| <= BatchLimit(batch) && r <= store
    ensures |r| == if |store| < BatchLimit(batch) then |store| else BatchLimit(batch)
    ensures store != [] ==> r != []
  {
    if |store| <= BatchLimit(batch) then store else store[..BatchLimit(batch)]
  }

  class Queue<T> {
    var store: seq<T>

    constructor ()
      ensures store == []
    {
      store := [];
    }

    method Enqueue(val: T)
      modifies this
      ensures store == old(store) + [val]
    {
      store := store + [val];
    }

    method Dequeue() returns (val: Option<T>)
      modifies this
      ensures old(store) == [] ==> val == None && store == []
      ensures old(store) != [] ==> val == Some(old(store)[0]) && store == old(store)[1..]
    {
      if store == [] {
        return None;
      }
      val := Some(store[0]);
      store := store[1..];
    }

    method Clear()
      modifies this
      ensures store == []
    {
      store := [];
    }

    /** Takes the first elements, as many as the limit allows, and keeps the rest in order. */
    method DequeueMultiple(batch: int) returns (buffer: seq<T>)
      modifies this
      ensures buffer == Taken(old(store), batch)
      ensures |buffer| == if |old(store)| < BatchLimit(batch) then |old(store)| else BatchLimit(batch)
      ensures buffer + store == old(store)
    {
      var limit := BatchLimit(batch);
      buffer := [];
      for i := 0 to limit
        invariant |buffer| == i
        invariant buffer + store == old(store)
      {
        var value := Dequeue();
        if value == None {
          break;
        }
        buffer := buffer + [value.value];
      }
    }
  }
}
