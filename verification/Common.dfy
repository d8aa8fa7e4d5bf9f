/**
 What several parts of the model share: optional values, powers of two, and rounding up to a multiple.
 */
module Common {
  datatype Option<T> = None | Some(value: T)

  function Pow2(n: nat): (p: nat)
    ensures p > 0
  {
    if n == 0 then 1 else 2 * Pow2(n - 1)
  }

  /** The least multiple of the alignment from a on. */
  function Ceiling(a: nat, alignment: nat): nat
    requires alignment > 0
  {
    (a + alignment - 1) / alignment * alignment
  }

  /** Rounding up gains less than the alignment. */
  lemma CeilingGain(a: nat, alignment: nat)
    requires alignment > 0
    ensures a <= Ceiling(a, alignment) <= a + alignment - 1 && Ceiling(a, alignment) % alignment == 0
  {
    var x := a + alignment - 1;
    assert x == x / alignment * alignment + x % alignment;
    MultipleMod(x / alignment, alignment);
  }

  lemma DivUnique(x: nat, d: nat, q: nat, r: nat)
    requires x == q * d + r && r < d
    ensures x / d == q && x % d == r
  {
    var p := x / d;
    assert x == d * p + x % d;
    if q < p {
      MulLe(q + 1, p, d);
    } else if p < q {
      MulLe(p + 1, q, d);
    }
  }

  lemma MulLe(a: nat, b: nat, d: nat)
    requires a <= b
    ensures a * d <= b * d
  {
  }

  lemma MultipleMod(q: nat, d: nat)
    requires d > 0
    ensures q * d % d == 0
  {
    DivUnique(q * d, d, q, 0);
  }
}
