/** The list helpers of the utils package: range, chunk, partition and batched promises. */
module Utils {
  import opened Common

  function Flatten<T>(ss: seq<seq<T>>): seq<T> {
    if ss == [] then [] else ss[0] + Flatten(ss[1..])
  }

  lemma {:induction false} FlattenAppend<T>(ss: seq<seq<T>>, s: seq<T>)
    ensures Flatten(ss + [s]) == Flatten(ss) + s
    decreases |ss|
  {
    if ss == [] {
      assert [s] == [s] + [] && Flatten([s]) == s + Flatten<T>([]);
    } else {
      FlattenAppend(ss[1..], s);
      assert (ss + [s])[1..] == ss[1..] + [s];
    }
  }

  lemma {:induction false} FlattenConcat<T>(a: seq<seq<T>>, b: seq<seq<T>>)
    ensures Flatten(a + b) == Flatten(a) + Flatten(b)
    decreases |a|
  {
    if a == [] {
      assert a + b == b;
    } else {
      FlattenConcat(a[1..], b);
      assert (a + b)[1..] == a[1..] + b;
    }
  }

  lemma {:induction false} FlattenHas<T>(ss: seq<seq<T>>, x: T)
    ensures x in Flatten(ss) <==> exists i :: 0 <= i < |ss| && x in ss[i]
    decreases |ss|
  {
    if ss != [] {
      FlattenHas(ss[1..], x);
      if x in Flatten(ss) && x !in ss[0] {
        var i :| 0 <= i < |ss[1..]| && x in ss[1..][i];
        assert x in ss[i + 1];
      }
      if i :| 0 <= i < |ss| && x in ss[i] {
        assert i > 0 ==> ss[i] == ss[1..][i - 1];
      }
    }
  }

  // ---------------------------------------------------------------- slices of one size

  /** The pieces are s cut into slices of the given size; only the last may be shorter, none is empty. */
  ghost predicate CutInto<T>(s: seq<T>, size: nat, pieces: seq<seq<T>>) {
    && Flatten(pieces) == s
    && forall i :: 0 <= i < |pieces| ==> 0 < |pieces[i]| <= size && (i < |pieces| - 1 ==> |pieces[i]| == size)
  }

  lemma {:induction false} CutCount<T>(s: seq<T>, size: nat, pieces: seq<seq<T>>)
    requires CutInto(s, size, pieces) && pieces != []
    ensures (|pieces| - 1) * size < |s| <= |pieces| * size
    decreases |pieces|
  {
    var rest := pieces[1..];
    if rest != [] {
      assert forall i :: 0 <= i < |rest| ==> rest[i] == pieces[i + 1];
      CutCount(Flatten(rest), size, rest);
      OneMore(|rest| - 1, size);
      OneMore(|rest|, size);
    } else {
      assert |pieces| == 1 && Flatten(rest) == [];
    }
  }

  lemma OneMore(n: nat, size: nat)
    ensures (n + 1) * size == n * size + size
  {
  }

  lemma MulMono(a: nat, b: nat, c: nat)
    requires a <= b
    ensures a * c <= b * c
  {
    var d := b - a;
    assert b * c == a * c + d * c;
  }

  lemma ModOf(q: nat, r: nat, n: nat)
    requires r < n
    ensures (q * n + r) % n == r
  {
    var x := q * n + r;
    var d: int := x / n - q;
    assert x == (x / n) * n + x % n;
    assert d * n == r - x % n;
    MulOutside(d, n);
  }

  lemma MulOutside(d: int, n: nat)
    ensures d >= 1 ==> d * n >= n
    ensures d <= -1 ==> d * n + n <= 0
  {
    if d >= 1 {
      assert d * n == n + (d - 1) * n;
    } else if d <= -1 {
      assert d * n == (d + 1) * n - n;
      assert (d + 1) * n == -((-d - 1) * n);
    }
  }

  method SliceBy<T>(arr: seq<T>, size: nat) returns (pieces: seq<seq<T>>)
    requires size > 0
    ensures CutInto(arr, size, pieces)
  {
    pieces := [];
    var i := 0;
    assert arr[..0] == [];
    while i < |arr|
      invariant CutInto(arr[..Min(i, |arr|)], size, pieces)
      invariant i < |arr| ==> forall j :: 0 <= j < |pieces| ==> |pieces[j]| == size
    {
      var end := Min(i + size, |arr|);
      FlattenAppend(pieces, arr[i..end]);
      assert arr[..i] + arr[i..end] == arr[..end];
      pieces := pieces + [arr[i..end]];
      i := i + size;
    }
    assert arr[..|arr|] == arr;
  }

  function Min(a: int, b: int): int {
    if a < b then a else b
  }

  method Chunk<T>(arr: seq<T>, chunkSize: int) returns (chunks: seq<seq<T>>)
    ensures chunkSize <= 0 ==> chunks == []
    ensures chunkSize > 0 ==> CutInto(arr, chunkSize, chunks)
  {
    if chunkSize <= 0 {
      return [];
    }
    chunks := SliceBy(arr, chunkSize);
  }

  /**
   * The slice size for the wished number of parts.  With zero parts the quotient is infinite and the whole
   * list is one slice; with a negative number it is the floor of a negative quotient.
   */
  function PartitionSize(length: nat, maxParts: int, minChunkSize: int): int {
    var calculated :=
      if length < maxParts then length
      else if maxParts == 0 then length
      else if maxParts < 0 then -((length - maxParts - 1) / -maxParts)
      else length / maxParts;
    if calculated < minChunkSize then minChunkSize else calculated
  }

  /** The slicing loop moves on, and so ends, exactly when there are no negative parts or a minimum size. */
  lemma {:induction false} PartitionEndsExactly(length: nat, maxParts: int, minChunkSize: int)
    requires length > 0
    ensures PartitionSize(length, maxParts, minChunkSize) > 0 <==> maxParts >= 0 || minChunkSize > 0
  {
    if 0 < maxParts <= length {
      QuotientPositive(length, maxParts);
    } else if maxParts < 0 {
      QuotientPositive(length - maxParts - 1, -maxParts);
    }
  }

  lemma QuotientPositive(n: nat, d: nat)
    requires 0 < d <= n
    ensures n / d >= 1
  {
  }

  method Partition<T>(arr: seq<T>, maxParts: int, minChunkSize: int) returns (parts: seq<seq<T>>)
    requires maxParts >= 0 || minChunkSize > 0
    ensures arr != [] ==> PartitionSize(|arr|, maxParts, minChunkSize) > 0
    ensures CutInto(arr, Max(PartitionSize(|arr|, maxParts, minChunkSize), 0), parts)
    ensures arr != [] && 0 <= |arr| < maxParts ==> parts == [arr]
    ensures arr != [] && maxParts == 0 ==> parts == [arr]
    ensures maxParts >= 1 && |arr| >= maxParts ==>
              CutInto(arr, Max(|arr| / maxParts, minChunkSize), parts)
    ensures maxParts >= 1 ==> |parts| <= 2 * maxParts - 1
    ensures maxParts >= 1 && arr != [] ==>
              (|parts| <= maxParts <==> FitsMaxParts(|arr|, maxParts, minChunkSize))
  {
    if arr == [] {
      return [];
    }
    var size := PartitionSize(|arr|, maxParts, minChunkSize);
    PartitionEndsExactly(|arr|, maxParts, minChunkSize);
    parts := SliceBy(arr, size);
    if size >= |arr| {
      OnePiece(arr, size, parts);
    }
    if maxParts >= 1 {
      CutCount(arr, size, parts);
      PartitionBound(|arr|, maxParts, size, |parts|);
      PartsWithinMax(arr, maxParts, minChunkSize, parts);
    }
  }

  lemma {:induction false} OnePiece<T>(s: seq<T>, size: nat, pieces: seq<seq<T>>)
    requires s != [] && CutInto(s, size, pieces) && size >= |s|
    ensures pieces == [s]
  {
    assert pieces != [] by {
      assert Flatten<T>([]) == [];
    }
    CutCount(s, size, pieces);
    if |pieces| > 1 {
      MulMono(1, |pieces| - 1, size);
    }
    assert |pieces| == 1 && pieces[1..] == [];
    assert Flatten(pieces) == pieces[0] + [] == pieces[0];
  }

  function Max(a: int, b: int): int {
    if a < b then b else a
  }

  /** Slices of at least length / maxParts number at most 2 * maxParts - 1. */
  lemma {:induction false} PartitionBound(length: nat, maxParts: nat, size: nat, count: nat)
    requires maxParts >= 1 && size >= 1 && (count - 1) * size < length
    requires if length < maxParts then size >= length else size >= length / maxParts
    ensures count <= 2 * maxParts - 1
  {
    if length < maxParts {
      if count > 1 {
        MulMono(1, count - 1, size);
      }
    } else if count >= 2 * maxParts {
      var c := length / maxParts;
      assert length < c * maxParts + maxParts;
      assert c >= 1;
      MulMono(2 * maxParts - 1, count - 1, size);
      MulMono(c, size, 2 * maxParts - 1);
      assert (2 * maxParts - 1) * c == c * maxParts + (maxParts - 1) * c;
      MulMono(1, c, maxParts - 1);
    }
  }

  /** When a caller gets no more parts than asked for: too few elements, too small parts, or parts without a rest. */
  predicate FitsMaxParts(length: nat, maxParts: nat, minChunkSize: int)
    requires maxParts >= 1
  {
    length < maxParts || length / maxParts < minChunkSize || length % maxParts == 0
  }

  /** At most maxParts parts come back if and only if they fit. */
  lemma {:induction false} PartsWithinMax<T>(arr: seq<T>, maxParts: nat, minChunkSize: int, parts: seq<seq<T>>)
    requires maxParts >= 1 && arr != []
    requires CutInto(arr, Max(PartitionSize(|arr|, maxParts, minChunkSize), 0), parts)
    ensures |parts| <= maxParts <==> FitsMaxParts(|arr|, maxParts, minChunkSize)
  {
    var size := Max(PartitionSize(|arr|, maxParts, minChunkSize), 0);
    assert parts != [] by {
      assert Flatten<T>([]) == [];
    }
    CutCount(arr, size, parts);
    CountWithinMax(|arr|, maxParts, minChunkSize, size, |parts|);
  }

  lemma {:induction false} CountWithinMax(length: nat, maxParts: nat, minChunkSize: int, size: nat, count: nat)
    requires maxParts >= 1 && length >= 1 && size == Max(PartitionSize(length, maxParts, minChunkSize), 0)
    requires count >= 1 && (count - 1) * size < length <= count * size
    ensures count <= maxParts <==> FitsMaxParts(length, maxParts, minChunkSize)
  {
    if length < maxParts {
      if count > 1 {
        MulMono(1, count - 1, size);
      }
    } else {
      var c := length / maxParts;
      assert length == c * maxParts + length % maxParts;
      if c < minChunkSize {
        if count > maxParts {
          MulMono(maxParts, count - 1, size);
          MulMono(c + 1, size, maxParts);
          OneMore(c, maxParts);
        }
      } else if count > maxParts {
        MulMono(maxParts, count - 1, c);
      } else {
        MulMono(count, maxParts, c);
      }
    }
  }

  /** Five elements asked for in three parts come in five. */
  lemma {:induction false} FivePartsForThree(arr: seq<int>, parts: seq<seq<int>>)
    requires |arr| == 5 && CutInto(arr, PartitionSize(|arr|, 3, 0), parts)
    ensures |parts| == 5
  {
    assert PartitionSize(5, 3, 0) == 1;
    assert parts != [] by {
      assert Flatten<int>([]) == [];
    }
    CutCount(arr, 1, parts);
  }

  // ---------------------------------------------------------------- range and rangePromise

  /** start, start + 1, ... up to but not end, or downwards when end is not above start. */
  function RangeOf(start: int, end: int): (r: seq<int>)
    ensures |r| == if start < end then end - start else start - end
    ensures forall i :: 0 <= i < |r| ==> r[i] == if start < end then start + i else start - i
  {
    if start < end then seq(end - start, i => start + i) else seq(start - end, i => start - i)
  }

  method Range(start: int, end: int) returns (r: seq<int>)
    ensures r == RangeOf(start, end)
    ensures |r| == if start < end then end - start else start - end
    ensures forall i :: 0 <= i < |r| ==> r[i] == if start < end then start + i else start - i
  {
    r := [];
    var i := start;
    if start - end < 0 {
      while i < end
        invariant start <= i <= end
        invariant r == RangeOf(start, end)[..i - start]
      {
        r := r + [i];
        i := i + 1;
      }
    } else {
      while i > end
        invariant end <= i <= start
        invariant r == RangeOf(start, end)[..start - i]
      {
        r := r + [i];
        i := i - 1;
      }
    }
  }

  datatype RangeError<E> = FromAboveTo | NoBatchSize | CallRejected(error: E)

  /** The callback's results for from, from + 1, ..., to - 1. */
  function MapRange<T>(callback: int --> T, from: int, to: int): (r: seq<T>)
    requires from <= to && forall i :: from <= i < to ==> callback.requires(i)
    ensures |r| == to - from
    ensures forall i :: 0 <= i < |r| ==> r[i] == callback(from + i)
  {
    seq(to - from, i requires 0 <= i < to - from => callback(from + i))
  }

  ghost predicate AllResolve<T, E>(callback: int -> Result<T, E>, from: int, to: int) {
    forall i :: from <= i < to ==> callback(i).Ok?
  }

  /** What the callback's promises resolve to. */
  function Resolved<T, E>(callback: int -> Result<T, E>): int --> T {
    i requires callback(i).Ok? => callback(i).value
  }

  /** Call i rejects with the error, and all calls of the batches before its own resolve. */
  ghost predicate RejectsAt<T, E>(callback: int -> Result<T, E>, from: int, batchSize: int, i: int, error: E)
    requires batchSize > 0
  {
    callback(i) == Err(error) && AllResolve(callback, from, i - (i - from) % batchSize)
  }

  /** Batching is invisible in the results; a rejection is one of the first batch that has any. */
  method RangePromise<T, E>(callback: int -> Result<T, E>, from: int, to: int, batchSize: int)
    returns (result: Result<seq<T>, RangeError<E>>)
    ensures to < from ==> result == Err(FromAboveTo)
    ensures from <= to && batchSize <= 0 ==> result == Err(NoBatchSize)
    ensures from <= to && batchSize > 0 ==>
              if AllResolve(callback, from, to) then result == Ok(MapRange(Resolved(callback), from, to))
              else && result.Err? && result.error.CallRejected?
                   && exists i :: from <= i < to && RejectsAt(callback, from, batchSize, i, result.error.error)
  {
    if to < from {
      return Err(FromAboveTo);
    }
    if batchSize <= 0 {
      return Err(NoBatchSize);
    }
    var batchTo := (to - from + batchSize - 1) / batchSize;
    CeilBounds(to - from, batchSize);
    var all: seq<T> := [];
    for batch := 0 to batchTo
      invariant from <= from + batch * batchSize
      invariant AllResolve(callback, from, Min(from + batch * batchSize, to))
      invariant all == MapRange(Resolved(callback), from, Min(from + batch * batchSize, to))
    {
      var slotFrom := from + batch * batchSize;
      var slotTo := Min(slotFrom + batchSize, to);
      OneMore(batch, batchSize);
      MulMono(batch, batchTo - 1, batchSize);
      var batchResult := CallAll(callback, slotFrom, slotTo);
      if batchResult.Err? {
        ghost var i :| slotFrom <= i < slotTo && callback(i) == Err(batchResult.error);
        ModOf(batch, i - slotFrom, batchSize);
        assert RejectsAt(callback, from, batchSize, i, batchResult.error);
        return Err(CallRejected(batchResult.error));
      }
      MapRangeSplit(Resolved(callback), from, slotFrom, slotTo);
      all := all + batchResult.value;
    }
    result := Ok(all);
  }

  /**
   * The callbacks of one batch; all of them are called, and one rejection rejects the whole.  Which one
   * comes first in time is left open.
   */
  method CallAll<T, E>(callback: int -> Result<T, E>, from: int, to: int) returns (results: Result<seq<T>, E>)
    requires from <= to
    ensures AllResolve(callback, from, to) ==> results == Ok(MapRange(Resolved(callback), from, to))
    ensures !AllResolve(callback, from, to) ==>
              results.Err? && exists i :: from <= i < to && callback(i) == Err(results.error)
  {
    var steps := Range(from, to);
    assert forall i :: 0 <= i < |steps| ==> steps[i] == from + i;
    var values: seq<T> := [];
    for k := 0 to |steps|
      invariant AllResolve(callback, from, from + k)
      invariant values == MapRange(Resolved(callback), from, from + k)
    {
      match callback(steps[k])
      case Err(e) =>
        assert callback(from + k) == Err(e);
        return Err(e);
      case Ok(v) =>
        values := values + [v];
    }
    results := Ok(values);
  }

  lemma MapRangeSplit<T>(callback: int --> T, from: int, mid: int, to: int)
    requires from <= mid <= to && forall i :: from <= i < to ==> callback.requires(i)
    ensures MapRange(callback, from, mid) + MapRange(callback, mid, to) == MapRange(callback, from, to)
  {
  }

  lemma CeilBounds(n: nat, d: nat)
    requires d > 0
    ensures
      var c := (n + d - 1) / d;
      c * d >= n && (c - 1) * d < n
  {
    var c := (n + d - 1) / d;
    assert n + d - 1 == c * d + (n + d - 1) % d;
    assert (c - 1) * d == c * d - d;
  }
}
