/** The gated constraints of `common.rs` and of the Grumpkin helpers, as the
    condition under which they accept. */
module Gates {
  import opened Felts
  import opened ModArith

  /** `gate * (lhs - rhs) == 0`. */
  function GatedEq(gate: Felt, lhs: Felt, rhs: Felt): bool {
    Mul(gate, Add(lhs, Neg(rhs))) == 0
  }

  /** `gate * value * (1 - value) == 0`. */
  function GatedBoolean(gate: Felt, value: Felt): bool {
    GatedEq(gate, Mul(value, Add(1, Neg(value))), 0)
  }

  lemma DifferenceZero(a: Felt, b: Felt)
    ensures Add(a, Neg(b)) == 0 <==> a == b
  {
    if a < b {
      assert Add(a, Neg(b)) == PRIME - (b - a);
    } else {
      SubExact(a, b);
    }
  }

  /** An open gate enforces the equation, a closed one nothing. */
  lemma GatedEqMeans(gate: Felt, lhs: Felt, rhs: Felt)
    requires gate <= 1
    ensures GatedEq(gate, lhs, rhs) <==> gate == 0 || lhs == rhs
  {
    DifferenceZero(lhs, rhs);
  }

  /** Over a field the boolean constraint accepts exactly 0 and 1. */
  lemma GatedBooleanMeans(gate: Felt, value: Felt)
    requires gate <= 1 && Prime(PRIME)
    ensures GatedBoolean(gate, value) <==> gate == 0 || value <= 1
  {
    hide Prime;
    GatedEqMeans(gate, Mul(value, Add(1, Neg(value))), 0);
    var c := Add(1, Neg(value));
    DifferenceZero(1, value);
    ProductZero(value, c);
  }

  /** Over a field a product is zero exactly when a factor is. */
  lemma ProductZero(a: Felt, b: Felt)
    requires Prime(PRIME)
    ensures Mul(a, b) == 0 <==> a == 0 || b == 0
  {
    CongIffMod(a * b, 0, PRIME);
    if Mul(a, b) == 0 {
      Euclid(PRIME, a, b);
      CongIffMod(a, 0, PRIME);
      CongIffMod(b, 0, PRIME);
    }
  }
}
