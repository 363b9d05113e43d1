/** Shared value types: optional values, outcomes and bytes. */
module Common {

  datatype Option<+T> = None | Some(value: T)

  datatype Result<+T, +E> = Ok(value: T) | Err(error: E)

  type Byte = b: int | 0 <= b < 256

  const U64_MAX: nat := 0xFFFF_FFFF_FFFF_FFFF

  /** `u64::checked_add(1)`. */
  function CheckedSucc(n: nat): Option<nat> {
    if n + 1 <= U64_MAX then Some(n + 1) else None
  }

  /** Every change along `h` raises the rank. */
  ghost predicate Ranked<T(!new)>(h: seq<T>, rank: T -> nat) {
    forall i :: 0 < i < |h| ==> h[i - 1] == h[i] || rank(h[i - 1]) < rank(h[i])
  }

  /** Along a ranked history two equal ranks mean that nothing changed in between. */
  lemma {:induction false} RankedIsMonotone<T(!new)>(h: seq<T>, rank: T -> nat, i: nat, j: nat)
    requires Ranked(h, rank) && i <= j < |h|
    ensures rank(h[i]) <= rank(h[j])
    ensures rank(h[i]) == rank(h[j]) ==> forall k :: i <= k <= j ==> h[k] == h[i]
    decreases j - i
  {
    if i < j {
      RankedIsMonotone(h, rank, i, j - 1);
    }
  }
}
