/** Modular inversion by square and multiply (`modular.rs`), and the choice of
    the multiplication it uses. */
module Inversion {
  import opened Felts
  import opened Limbs
  import opened Solinas
  import opened CurveOrders
  import opened Barrett
  import opened PowersOfTwo
  import opened ModArith

  const SECP256R1_P: seq<Felt> := [0xFFFFFFFFFFFFFFFF, 0x00000000FFFFFFFF, 0x0000000000000000, 0xFFFFFFFF00000001]

  /** A number whose top limb has its two highest bits set. */
  lemma TopBits(n: seq<nat>)
    requires IsLimbs(n, LIMBS) && n[3] >= 0xC000000000000000
    ensures BarrettModulus(n) && Val(n) > 2
  {
    hide Val, Weight, BarrettModulus;
    FourLimbs(n);
    ValBound(n);
    Weights();
    assert 3 * W4 <= 4 * Val(n);
    ThreeQuarters(n);
  }

  /** The four curve moduli meet the condition. */
  lemma CurveModuli(n: seq<Felt>)
    requires n == SECP256K1_P || n == SECP256K1_N || n == SECP256R1_P || n == SECP256R1_N
    ensures IsLimbs(n, LIMBS) && BarrettModulus(n) && Val(n) > 2
  {
    TopBits(n);
  }

  /** The multiplication a modulus is dispatched to: reduction by folding for the
      secp256k1 field, Barrett otherwise. */
  method MulModDispatch(lhs: seq<Felt>, rhs: seq<Felt>, n: seq<Felt>) returns (r: seq<Felt>)
    requires IsLimbs(lhs, LIMBS) && IsLimbs(rhs, LIMBS) && IsLimbs(n, LIMBS) && BarrettModulus(n)
    ensures IsLimbs(r, LIMBS)
    ensures n == SECP256K1_P || Estimable(n, Val(lhs), Val(rhs)) ==> Val(r) == (Val(lhs) * Val(rhs)) % Val(n)
  {
    hide Val, BarrettModulus, Estimable;
    if n == SECP256K1_P {
      PrimeLimbs();
      r := MulModP(lhs, rhs);
    } else {
      LargeIsFullWidth(n);
      r := MulModBarrett(lhs, rhs, n);
    }
  }

  // ── Exponent bits ────────────────────────────────────────────────────────

  function Bits(e: nat): (k: nat)
    ensures e < Two(k)
  {
    if e == 0 then 0 else Bits(e / 2) + 1
  }

  predicate BitSet(e: nat, i: nat) {
    Shr(e, i) % 2 == 1
  }

  /** Dropping one bit less: the quotient doubles and takes in the bit. */
  lemma NextBit(e: nat, i: nat)
    ensures Shr(e, i) == 2 * Shr(e, i + 1) + (if BitSet(e, i) then 1 else 0)
  {
    ShiftStep(e, Two(i), 2);
    assert Two(i + 1) == 2 * Two(i);
  }

  lemma AllBitsDropped(e: nat)
    ensures var high := if Bits(e) == 0 then 0 else Bits(e) - 1;
            Shr(e, high + 1) == 0
  {
    var high := if Bits(e) == 0 then 0 else Bits(e) - 1;
    assert Two(1) == 2 * Two(0);
    SmallQuotientIsZero(e, Two(high + 1));
  }

  /** One round of square and multiply on residues. */
  lemma SquareMultiply(a: nat, n: nat, e: nat, bit: bool, r: nat, s: nat, t: nat)
    requires n > 0 && r == Pow(a, e) % n && s == (r * r) % n
    requires t == if bit then (s * a) % n else s
    ensures t == Pow(a, 2 * e + (if bit then 1 else 0)) % n
  {
    CongMod(Pow(a, e), n);
    CongMul(r, Pow(a, e), r, Pow(a, e), n);
    PowSum(a, e, e);
    CongMod(r * r, n);
    CongTrans(s, r * r, Pow(a, 2 * e), n);
    if bit {
      CongRefl(a, n);
      CongMul(s, Pow(a, 2 * e), a, a, n);
      assert Pow(a, 2 * e + 1) == a * Pow(a, 2 * e);
      CongMod(s * a, n);
      CongTrans(t, s * a, Pow(a, 2 * e + 1), n);
      CongIffMod(t, Pow(a, 2 * e + 1), n);
      SmallMod(t, n);
    } else {
      CongIffMod(s, Pow(a, 2 * e), n);
      SmallMod(s, n);
    }
  }

  lemma OneLimbs()
    ensures IsLimbs([1, 0, 0, 0], LIMBS) && Val([1, 0, 0, 0]) == 1
  {
    ValOf4(1, 0, 0, 0);
  }

  /** The power that the bits from `i` up contribute. */
  ghost function PowSoFar(a: nat, e: nat, i: nat): int {
    Pow(a, Shr(e, i))
  }

  lemma PowSoFarStarts(a: nat, e: nat, n: nat)
    requires n >= 2
    ensures PowSoFar(a, e, if Bits(e) == 0 then 1 else Bits(e)) % n == 1
  {
    hide Pow, Bits, Prime, Two;
    AllBitsDropped(e);
    PowZero(a);
    SmallMod(1, n);
  }

  lemma PowSoFarEnds(a: nat, e: nat)
    ensures PowSoFar(a, e, 0) == Pow(a, e)
  {
    hide Pow, Bits;
    SmallPowers();
    assert Shr(e, 0) == e;
  }

  lemma PowSoFarStep(a: nat, n: nat, e: nat, i: nat, r: nat, s: nat, t: nat)
    requires n > 0 && r == PowSoFar(a, e, i + 1) % n && s == (r * r) % n
    requires t == if BitSet(e, i) then (s * a) % n else s
    ensures t == PowSoFar(a, e, i) % n
  {
    hide Pow, BitSet, Shr;
    NextBit(e, i);
    SquareMultiply(a, n, Shr(e, i + 1), BitSet(e, i), r, s, t);
  }

  /** `a^(n - 2) mod n`, most significant bit first. */
  method PowModN(a: seq<Felt>, n: seq<Felt>) returns (result: seq<Felt>)
    requires IsLimbs(a, LIMBS) && IsLimbs(n, LIMBS)
    requires BarrettModulus(n) && Val(n) >= 2 && Val(a) < Val(n)
    ensures IsLimbs(result, LIMBS) && Val(result) == Pow(Val(a), Val(n) - 2) % Val(n)
  {
    hide Val, BarrettModulus, Pow, Bits, BitSet, PowSoFar;
    var exponent := Val(n) - 2;
    var highBit := if Bits(exponent) == 0 then 0 else Bits(exponent) - 1;
    result := [1, 0, 0, 0];
    OneLimbs();
    PowSoFarStarts(Val(a), exponent, Val(n));
    PowSoFarEnds(Val(a), exponent);
    var bitIdx: nat := highBit + 1;
    while bitIdx > 0
      invariant IsLimbs(result, LIMBS)
      invariant Val(result) == PowSoFar(Val(a), exponent, bitIdx) % Val(n)
    {
      ghost var before := Val(result);
      bitIdx := bitIdx - 1;
      result := MulModDispatch(result, result, n);
      ghost var squared := Val(result);
      if BitSet(exponent, bitIdx) {
        result := MulModDispatch(result, a, n);
      }
      PowSoFarStep(Val(a), Val(n), exponent, bitIdx, before, squared, Val(result));
    }
  }

  /** The inverse of a residue, when the modulus is prime. */
  method InvModN(a: seq<Felt>, n: seq<Felt>) returns (result: seq<Felt>)
    requires IsLimbs(a, LIMBS) && IsLimbs(n, LIMBS)
    requires BarrettModulus(n) && Val(n) >= 2 && Val(a) < Val(n)
    ensures IsLimbs(result, LIMBS) && Val(result) == Pow(Val(a), Val(n) - 2) % Val(n)
    ensures Prime(Val(n)) && Val(a) > 0 ==> (Val(a) * Val(result)) % Val(n) == 1
  {
    hide Prime, Pow, Val, BarrettModulus;
    result := PowModN(a, n);
    if Prime(Val(n)) && Val(a) > 0 {
      InverseIsInverse(Val(a), Val(n), Val(result));
    }
  }

  lemma PowZero(a: int)
    ensures Pow(a, 0) == 1
  {
  }

  /** For a prime modulus the result is the inverse. */
  lemma InverseIsInverse(a: nat, n: nat, r: nat)
    requires Prime(n) && 0 < a < n && r == Pow(a, n - 2) % n
    ensures (a * r) % n == 1 && 0 < r < n
  {
    CongMod(Pow(a, n - 2), n);
    CongRefl(a, n);
    CongMul(a, a, r, Pow(a, n - 2), n);
    FermatInverse(n, a);
    CongTrans(a * r, a * Pow(a, n - 2), 1, n);
    CongIffMod(a * r, 1, n);
    SmallMod(1, n);
    if r == 0 {
      SmallMod(0, n);
    }
  }

  /** Zero has no inverse; the loop returns zero for it. */
  lemma InverseOfZero(n: nat)
    requires n > 2
    ensures Pow(0, n - 2) % n == 0
  {
    assert Pow(0, n - 2) == 0 * Pow(0, n - 3);
    SmallMod(0, n);
  }
}
