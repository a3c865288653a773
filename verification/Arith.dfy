/** Shared vocabulary: optional and fallible results, and the unsigned machine
    arithmetic the payment code is written in. Amounts are unbounded naturals;
    where the source saturates at 128 bits the saturation is written out. */
module Arith {

  datatype Option<+T> = None | Some(value: T)

  datatype Result<+T, +E> = Ok(value: T) | Err(error: E)

  newtype byte = x: int | 0 <= x < 256

  const U64_MAX: nat := 0xFFFF_FFFF_FFFF_FFFF
  const U128_MAX: nat := 0xFFFF_FFFF_FFFF_FFFF_FFFF_FFFF_FFFF_FFFF

  /** A machine integer of 128 bits. */
  type u128 = x: nat | x <= U128_MAX

  function Min(a: nat, b: nat): nat { if a <= b then a else b }

  function Max(a: nat, b: nat): nat { if a >= b then a else b }

  /** `u128::saturating_add` */
  function SatAdd(a: nat, b: nat): nat { Min(a + b, U128_MAX) }

  /** `u128::saturating_sub` */
  function SatSub(a: nat, b: nat): nat { if a <= b then 0 else a - b }

  /** `u64::div_ceil` by 1024. */
  function KibUp(bytes: nat): nat { (bytes + 1023) / 1024 }

  function Pow2(k: nat): (p: nat)
    ensures p >= 1
  {
    if k == 0 then 1 else 2 * Pow2(k - 1)
  }

  predicate Distinct<T(==)>(s: seq<T>) { forall i, j :: 0 <= i < j < |s| ==> s[i] != s[j] }

  /** Rounding up is exactly the least number of KiB that holds the bytes. */
  lemma KibUpBounds(bytes: nat, kib: nat)
    ensures KibUp(bytes) <= kib <==> bytes <= kib * 1024
  {
  }

  lemma MulMono(a: nat, b: nat, c: nat)
    requires a <= b
    ensures a * c <= b * c
  {
  }

  /** `budget / unit` is the largest count of units that fits the budget. */
  lemma DivIsLargest(budget: nat, unit: nat, n: nat)
    requires unit > 0
    ensures n * unit <= budget <==> n <= budget / unit
  {
    var q, r := budget / unit, budget % unit;
    assert budget == q * unit + r;
    if n <= q {
      MulMono(n, q, unit);
    } else {
      MulMono(q + 1, n, unit);
      assert (q + 1) * unit == q * unit + unit;
    }
  }

  lemma DivUnique(x: nat, d: nat, q: nat, r: nat)
    requires d > 0 && x == q * d + r && r < d
    ensures x / d == q
  {
    DivIsLargest(x, d, q);
    assert (q + 1) * d == q * d + d;
    DivIsLargest(x, d, q + 1);
  }
}
