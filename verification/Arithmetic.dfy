/** Multiplication and remainder facts the solver does not find by itself. */
module Arithmetic {
  lemma MulSuccessor(n: nat, m: nat)
    ensures (n + 1) * m == n * m + m
  {
  }

  lemma MulAssociative(x: nat, y: nat, z: nat)
    ensures x * y * z == x * (y * z)
  {
  }

  lemma MulDistributes(x: nat, y: nat, z: nat)
    ensures (x + y) * z == x * z + y * z
  {
  }

  lemma {:induction false} MulMonotone(a: nat, b: nat, m: nat)
    requires a <= b
    ensures a * m <= b * m
    decreases b
  {
    if a < b {
      MulMonotone(a, b - 1, m);
      MulSuccessor(b - 1, m);
    }
  }

  /** A quotient and a remainder below the modulus are the only ones. */
  lemma ModUnique(v: nat, m: nat, k: nat, r: nat)
    requires r < m && v == k * m + r
    ensures v % m == r && v / m == k
  {
    var q := v / m;
    assert v == q * m + v % m;
    MulSuccessor(k, m);
    MulSuccessor(q, m);
    if q > k {
      MulMonotone(k + 1, q, m);
      assert false;
    } else if q < k {
      MulMonotone(q + 1, k, m);
      assert false;
    }
  }
}
