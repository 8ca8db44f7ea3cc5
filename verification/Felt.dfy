/** Field elements as canonical representatives, and the operations emitted on
    them. `umod` and `uintdiv` act on the representative. */
module Felts {
  const PRIME: nat := 21888242871839275222246405745257275088548364400416034343698204186575808495617

  type Felt = x: nat | x < PRIME witness 0

  function Add(a: Felt, b: Felt): Felt {
    (a + b) % PRIME
  }

  function Neg(a: Felt): Felt {
    (PRIME - a) % PRIME
  }

  function Mul(a: Felt, b: Felt): Felt {
    (a * b) % PRIME
  }

  function UMod(a: Felt, b: Felt): Felt
    requires b > 0
  {
    a % b
  }

  function UintDiv(a: Felt, b: Felt): Felt
    requires b > 0
  {
    assert a / b <= a by {
      QuotientSmall(a, b);
    }
    a / b
  }

  lemma QuotientSmall(a: nat, b: nat)
    requires b > 0
    ensures 0 <= a / b <= a && a % b < b && a == b * (a / b) + a % b
  {
    assert b * (a / b) >= a / b by {
      MulMono(1, b, a / b);
    }
  }

  lemma MulMono(a: nat, b: nat, c: nat)
    requires a <= b
    ensures a * c <= b * c
  {
    assert (b - a) * c >= 0;
  }

  lemma MulMono2(w: nat, a: int, b: int)
    requires a <= b
    ensures w * a <= w * b
  {
    assert w * (b - a) >= 0;
  }

  /** Quotient and remainder are unique. */
  lemma DivModUnique(x: int, m: int, q: int, r: int)
    requires m > 0 && x == m * q + r && 0 <= r < m
    ensures x / m == q && x % m == r
  {
    var d := q - x / m;
    assert m * d == x % m - r by {
      assert m * (q - x / m) == m * q - m * (x / m);
    }
    if d >= 1 {
      MulMono(1, d, m);
    } else if d <= -1 {
      MulMono(1, -d, m);
    }
  }

  // Sums and products that stay below the prime are exact.

  lemma SmallQuotientIsZero(v: nat, w: nat)
    requires v < w
    ensures v / w == 0
  {
    DivModUnique(v, w, 0, v);
  }

  lemma AddExact(a: Felt, b: Felt)
    requires a + b < PRIME
    ensures Add(a, b) == a + b
  {
  }

  lemma MulExact(a: Felt, b: Felt)
    requires a * b < PRIME
    ensures Mul(a, b) == a * b
  {
    SmallMod(a * b, PRIME);
  }

  lemma SmallMod(a: nat, m: nat)
    requires a < m
    ensures a % m == a
  {
  }

  /** `a + c - b` computed with the negation of `b`. */
  lemma SubExact(a: Felt, b: Felt)
    requires b <= a
    ensures Add(a, Neg(b)) == a - b
  {
  }

  lemma NotBit(bit: Felt)
    requires bit <= 1
    ensures Add(1, Neg(bit)) == 1 - bit
  {
  }
}
