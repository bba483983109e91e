/** Shared vocabulary: optional values, and the binary arithmetic behind `>>= 1` and doubling. */
module Common {

  datatype Option<+T> = None | Some(value: T)

  datatype Result<+T, +E> = Ok(value: T) | Err(error: E)

  /** A read of an array at any integer index; outside the array it gives undefined. */
  function At<T>(s: seq<T>, i: int): Option<T> {
    if 0 <= i < |s| then Some(s[i]) else None
  }

  lemma Regroup<T>(a: seq<T>, b: seq<T>, c: seq<T>)
    ensures (a + b) + c == a + (b + c)
  {
  }

  function Pow2(k: nat): (p: nat)
    ensures p >= 1
  {
    if k == 0 then 1 else 2 * Pow2(k - 1)
  }

  /** `n >> k` for non-negative n. */
  function Shift(n: nat, k: nat): nat {
    if k == 0 then n else Shift(n / 2, k - 1)
  }

  /** `j << k`, that is j * 2^k. */
  function Scale(j: nat, k: nat): nat {
    if k == 0 then j else 2 * Scale(j, k - 1)
  }

  /** x is a multiple of 2^e. */
  predicate EvenUpTo(x: nat, e: nat) {
    e == 0 || (x % 2 == 0 && EvenUpTo(x / 2, e - 1))
  }

  /** Shifting by one more bit halves the shifted value. */
  lemma ShiftStep(n: nat, k: nat)
    ensures Shift(n, k + 1) == Shift(n, k) / 2
  {
    if k > 0 {
      ShiftStep(n / 2, k - 1);
    }
  }

  lemma ShiftAtMost(n: nat, k: nat)
    ensures Shift(n, k) <= n
  {
  }

  /** `n >> k` is the floor of n / 2^k. */
  lemma {:induction false} ShiftIsFloor(n: nat, k: nat)
    ensures Scale(Shift(n, k), k) <= n < Scale(Shift(n, k) + 1, k)
    decreases k
  {
    if k > 0 {
      ShiftIsFloor(n / 2, k - 1);
    }
  }

  lemma {:induction false} ScaleIsProduct(j: nat, k: nat)
    ensures Scale(j, k) == j * Pow2(k)
    decreases k
  {
    if k > 0 {
      ScaleIsProduct(j, k - 1);
    }
  }

  lemma {:induction false} ScaleSteps(a: nat, b: nat, k: nat)
    requires a < b
    ensures Scale(a, k) + Pow2(k) == Scale(a + 1, k) <= Scale(b, k)
    decreases k
  {
    if k > 0 {
      ScaleSteps(a, b, k - 1);
    }
  }

  lemma EvenUpToZero(e: nat)
    ensures EvenUpTo(0, e)
  {
  }

  lemma {:induction false} EvenUpToSum(x: nat, y: nat, e: nat)
    requires EvenUpTo(x, e) && EvenUpTo(y, e)
    ensures EvenUpTo(x + y, e)
  {
    if e > 0 {
      assert (x + y) / 2 == x / 2 + y / 2;
      EvenUpToSum(x / 2, y / 2, e - 1);
    }
  }

  lemma EvenUpToWeaken(x: nat, e: nat, f: nat)
    requires EvenUpTo(x, e) && f <= e
    ensures EvenUpTo(x, f)
  {
  }
}
