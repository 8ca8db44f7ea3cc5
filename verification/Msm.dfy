/** Bit decomposition of the scalars of a multi-scalar multiplication
    (`multi_scalar_mul.rs`): the bits `@compute` derives and the constraints
    `@constrain` puts on bits it is given. */
module Msm {
  import opened Felts
  import opened ModArith
  import opened Gates
  import opened PowersOfTwo

  const SCALAR_LOW_BITS: nat := 128
  const SCALAR_HIGH_BITS: nat := 126
  const SCALAR_TOTAL_BITS: nat := 254

  /** The number with the given bits, least significant first. */
  function BitsVal(bits: seq<nat>): nat {
    if bits == [] then 0 else bits[0] + 2 * BitsVal(bits[1..])
  }

  predicate AllBits(bits: seq<nat>) {
    forall i :: 0 <= i < |bits| ==> bits[i] <= 1
  }

  /** The `n` lowest bits of a number. */
  function BitsOf(v: nat, n: nat): (bits: seq<nat>)
    ensures |bits| == n && AllBits(bits)
  {
    if n == 0 then [] else [v % 2] + BitsOf(v / 2, n - 1)
  }

  lemma {:induction false} BitsOfVal(v: nat, n: nat)
    requires v < Two(n)
    ensures BitsVal(BitsOf(v, n)) == v
    decreases n
  {
    if n > 0 {
      BitsOfVal(v / 2, n - 1);
      assert BitsOf(v, n)[1..] == BitsOf(v / 2, n - 1);
    }
  }

  /** Bits are determined by their number. */
  lemma {:induction false} BitsUnique(bits: seq<nat>)
    requires AllBits(bits)
    ensures BitsVal(bits) < Two(|bits|) && bits == BitsOf(BitsVal(bits), |bits|)
    decreases |bits|
  {
    if bits != [] {
      BitsUnique(bits[1..]);
      assert BitsVal(bits) % 2 == bits[0] && BitsVal(bits) / 2 == BitsVal(bits[1..]);
    }
  }

  lemma {:induction false} BitsConcat(a: seq<nat>, b: seq<nat>)
    ensures BitsVal(a + b) == BitsVal(a) + Two(|a|) * BitsVal(b)
    decreases |a|
  {
    if a == [] {
      assert a + b == b;
    } else {
      assert (a + b)[1..] == a[1..] + b;
      BitsConcat(a[1..], b);
      assert 2 * (Two(|a| - 1) * BitsVal(b)) == (2 * Two(|a| - 1)) * BitsVal(b);
    }
  }

  // ── @compute ─────────────────────────────────────────────────────────────

  /** Peels bits; `fits` is the assertion that nothing is left. */
  method PeelBitsLe(input: Felt, numBits: nat) returns (bits: seq<Felt>, fits: bool)
    ensures bits == BitsOf(input, numBits)
    ensures fits <==> input < Two(numBits)
  {
    bits := [];
    var working: Felt := input;
    assert bits + BitsOf(working, numBits) == BitsOf(input, numBits);
    for i := 0 to numBits
      invariant bits + BitsOf(working, numBits - i) == BitsOf(input, numBits)
      invariant working < Two(numBits - i) <==> input < Two(numBits)
    {
      var quot := UintDiv(working, 2);
      var bit := UMod(working, 2);
      assert bits + BitsOf(working, numBits - i) == (bits + [bit]) + BitsOf(quot, numBits - i - 1);
      bits := bits + [bit];
      working := quot;
    }
    assert bits + BitsOf(working, 0) == bits;
    fits := working == 0;
  }

  method EmitScalarBitsFromLimbs(lo: Felt, hi: Felt) returns (bits: seq<Felt>, fits: bool)
    ensures bits == BitsOf(lo, SCALAR_LOW_BITS) + BitsOf(hi, SCALAR_HIGH_BITS)
    ensures fits <==> lo < Two(SCALAR_LOW_BITS) && hi < Two(SCALAR_HIGH_BITS)
  {
    var loBits, loFits := PeelBitsLe(lo, SCALAR_LOW_BITS);
    var hiBits, hiFits := PeelBitsLe(hi, SCALAR_HIGH_BITS);
    bits, fits := loBits + hiBits, loFits && hiFits;
  }

  // ── The modulus ──────────────────────────────────────────────────────────

  const GRUMPKIN_SCALAR_MODULUS_BE: seq<nat> :=
    [0x30, 0x64, 0x4e, 0x72, 0xe1, 0x31, 0xa0, 0x29] + [0xb8, 0x50, 0x45, 0xb6, 0x81, 0x81, 0x58, 0x5d] +
    [0x97, 0x81, 0x6a, 0x91, 0x68, 0x71, 0xca, 0x8d] + [0x3c, 0x20, 0x8c, 0x16, 0xd8, 0x7c, 0xfd, 0x47]

  const GRUMPKIN_SCALAR_MODULUS: nat := 0x30644e72e131a029b85045b68181585d97816a916871ca8d3c208c16d87cfd47

  const BN_PARAMETER: nat := 4965661367192848881

  /** The two primes of BN254 from the parameter of the curve family: the field of
      the circuit, and the order of the curve over it. */
  lemma CurvePrimes()
    ensures var u := BN_PARAMETER;
            && PRIME == u * (u * (u * (36 * u + 36) + 18) + 6) + 1
            && GRUMPKIN_SCALAR_MODULUS == u * (u * (u * (36 * u + 36) + 24) + 6) + 1
  {
  }

  /** The first `k` bytes as a big-endian number. */
  function Prefix(k: nat): nat
    requires k <= 32
  {
    if k == 0 then 0 else 256 * Prefix(k - 1) + GRUMPKIN_SCALAR_MODULUS_BE[k - 1]
  }

  lemma PrefixStep(k: nat)
    requires k < 32
    ensures Prefix(k + 1) == 256 * Prefix(k) + GRUMPKIN_SCALAR_MODULUS_BE[k]
  {
  }

  lemma PrefixFour(k: nat, a: nat, b: nat, c: nat, d: nat)
    requires k + 4 <= 32
    requires GRUMPKIN_SCALAR_MODULUS_BE[k] == a && GRUMPKIN_SCALAR_MODULUS_BE[k + 1] == b
    requires GRUMPKIN_SCALAR_MODULUS_BE[k + 2] == c && GRUMPKIN_SCALAR_MODULUS_BE[k + 3] == d
    ensures Prefix(k + 4) == 0x1_0000_0000 * Prefix(k) + 0x100_0000 * a + 0x1_0000 * b + 0x100 * c + d
  {
    hide Prefix;
    PrefixStep(k);
    PrefixStep(k + 1);
    PrefixStep(k + 2);
    PrefixStep(k + 3);
  }

  lemma FirstQuarter()
    ensures Prefix(8) == 0x1_0000_0000_0000_0000 * Prefix(0) + 0x30644e72e131a029
  {
    hide Prefix, Two, BitsVal, BitsOf;
    PrefixFour(0, 0x30, 0x64, 0x4e, 0x72);
    PrefixFour(4, 0xe1, 0x31, 0xa0, 0x29);
  }

  lemma SecondQuarter()
    ensures Prefix(16) == 0x1_0000_0000_0000_0000 * Prefix(8) + 0xb85045b68181585d
  {
    hide Prefix, Two, BitsVal, BitsOf;
    PrefixFour(8, 0xb8, 0x50, 0x45, 0xb6);
    PrefixFour(12, 0x81, 0x81, 0x58, 0x5d);
  }

  lemma ThirdQuarter()
    ensures Prefix(24) == 0x1_0000_0000_0000_0000 * Prefix(16) + 0x97816a916871ca8d
  {
    hide Prefix, Two, BitsVal, BitsOf;
    PrefixFour(16, 0x97, 0x81, 0x6a, 0x91);
    PrefixFour(20, 0x68, 0x71, 0xca, 0x8d);
  }

  lemma FourthQuarter()
    ensures Prefix(32) == 0x1_0000_0000_0000_0000 * Prefix(24) + 0x3c208c16d87cfd47
  {
    hide Prefix, Two, BitsVal, BitsOf;
    PrefixFour(24, 0x3c, 0x20, 0x8c, 0x16);
    PrefixFour(28, 0xd8, 0x7c, 0xfd, 0x47);
  }

  /** The byte table spells the modulus. */
  lemma ModulusBytes()
    ensures Prefix(32) == GRUMPKIN_SCALAR_MODULUS
  {
    assert Prefix(0) == 0;
    hide Prefix;
    FirstQuarter();
    SecondQuarter();
    ThirdQuarter();
    FourthQuarter();
  }

  lemma {:induction false} BitOfAt(v: nat, n: nat, i: nat)
    requires i < n
    ensures BitsOf(v, n)[i] == (v / Two(i)) % 2
    decreases i
  {
    if i == 0 {
      assert v / 1 == v;
    } else {
      BitOfAt(v / 2, n - 1, i - 1);
      assert BitsOf(v, n)[i] == BitsOf(v / 2, n - 1)[i - 1];
      ShiftStep(v, 2, Two(i - 1));
      assert Two(i - 1) * 2 == Two(i);
    }
  }

  /** Shifting the modulus by whole bytes drops bytes. */
  lemma {:induction false} DropBytes(k: nat)
    requires k <= 32
    ensures Prefix(32) / Two(8 * k) == Prefix(32 - k)
    decreases k
  {
    if k == 0 {
      assert Prefix(32) / 1 == Prefix(32);
    } else {
      hide Prefix, Two;
      DropBytes(k - 1);
      ByteShift(k - 1);
      ShiftStep(Prefix(32), Two(8 * (k - 1)), 256);
      PrefixStep(32 - k);
      ByteRange(32 - k);
      DivModUnique(Prefix(32 - (k - 1)), 256, Prefix(32 - k), GRUMPKIN_SCALAR_MODULUS_BE[32 - k]);
    }
  }

  lemma ByteShift(k: nat)
    ensures Two(8 * (k + 1)) == 256 * Two(8 * k)
  {
    SmallPowers();
    TwoSum(8, 8 * k);
  }

  lemma ByteRange(k: nat)
    requires k < 32
    ensures GRUMPKIN_SCALAR_MODULUS_BE[k] < 256
  {
  }

  lemma ByteBit(high: nat, byte: nat, j: nat)
    requires j < 8
    ensures ((256 * high + byte) / Two(j)) % 2 == (byte / Two(j)) % 2
  {
    SmallPowers();
    TwoSum(j, 8 - j);
    hide Two;
    var d, e := Two(j), Two(7 - j);
    assert Two(8 - j) == 2 * e by {
      TwoSum(1, 7 - j);
    }
    HighBits(high, byte, d, e);
  }

  lemma HighBits(high: nat, byte: nat, d: nat, e: nat)
    requires d > 0 && d * (2 * e) == 256
    ensures ((256 * high + byte) / d) % 2 == (byte / d) % 2
  {
    var q, k := byte / d, e * high;
    QuotientSmall(byte, d);
    HighParts(high, byte, d, e, q, byte % d);
    DivModUnique(256 * high + byte, d, 2 * k + q, byte % d);
    EvenPart(k, q);
  }

  lemma HighParts(high: nat, byte: nat, d: nat, e: nat, q: nat, r: nat)
    requires d * (2 * e) == 256 && byte == d * q + r
    ensures 256 * high + byte == d * (2 * (e * high) + q) + r
  {
    TwiceTimes(d, e, high);
    SumTimes(d, 2 * (e * high), q);
  }

  lemma EvenPart(k: nat, q: nat)
    ensures (2 * k + q) % 2 == q % 2
  {
  }

  lemma TwiceTimes(d: nat, e: nat, high: nat)
    ensures d * (2 * e) * high == d * (2 * (e * high))
  {
    assert d * (2 * e) * high == d * ((2 * e) * high);
  }

  lemma SumTimes(d: nat, t: nat, q: nat)
    ensures d * (t + q) == d * t + d * q
  {
  }

  /** A bit of the table is a bit of the modulus. */
  lemma TableBit(i: nat)
    requires i < SCALAR_TOTAL_BITS
    ensures (GRUMPKIN_SCALAR_MODULUS_BE[31 - i / 8] / Two(i % 8)) % 2 == BitsOf(GRUMPKIN_SCALAR_MODULUS, SCALAR_TOTAL_BITS)[i]
  {
    hide Prefix, BitsOf, Two;
    var k, j := i / 8, i % 8;
    ModulusBytes();
    BitOfAt(GRUMPKIN_SCALAR_MODULUS, SCALAR_TOTAL_BITS, i);
    TwoSum(j, 8 * k);
    ShiftStep(Prefix(32), Two(8 * k), Two(j));
    DropBytes(k);
    PrefixStep(31 - k);
    ByteBit(Prefix(31 - k), GRUMPKIN_SCALAR_MODULUS_BE[31 - k], j);
  }

  method GrumpkinScalarModulusBitsLe() returns (bits: seq<bool>)
    ensures |bits| == SCALAR_TOTAL_BITS
    ensures forall i :: 0 <= i < SCALAR_TOTAL_BITS ==> (bits[i] <==> BitsOf(GRUMPKIN_SCALAR_MODULUS, SCALAR_TOTAL_BITS)[i] == 1)
  {
    hide BitsOf, Two;
    bits := seq(SCALAR_TOTAL_BITS, _ => false);
    for bitIndex := 0 to SCALAR_TOTAL_BITS
      invariant |bits| == SCALAR_TOTAL_BITS
      invariant forall i :: 0 <= i < bitIndex ==> (bits[i] <==> BitsOf(GRUMPKIN_SCALAR_MODULUS, SCALAR_TOTAL_BITS)[i] == 1)
    {
      var byte := GRUMPKIN_SCALAR_MODULUS_BE[31 - bitIndex / 8];
      TableBit(bitIndex);
      bits := bits[bitIndex := (byte / Two(bitIndex % 8)) % 2 == 1];
    }
  }

  // ── @constrain ───────────────────────────────────────────────────────────

  /** The sum of the bits with doubling coefficients, exact in the field. */
  method ReconstructScalarLimb(bits: seq<Felt>) returns (acc: Felt)
    requires 0 < |bits| <= SCALAR_LOW_BITS
    ensures AllBits(bits) ==> acc == BitsVal(bits)
  {
    hide BitsVal, Two, Add, Mul;
    var coeff: Felt := 1;
    acc := bits[0];
    FirstBit(bits);
    for i := 1 to |bits|
      invariant coeff == Two(i - 1)
      invariant AllBits(bits) ==> acc == BitsVal(bits[..i])
    {
      NextCoefficient(i - 1);
      coeff := Mul(coeff, 2);
      var term := Mul(bits[i], coeff);
      if AllBits(bits) {
        NextTerm(bits, i, acc, coeff);
      }
      acc := Add(acc, term);
    }
    assert bits[..|bits|] == bits;
  }

  lemma FirstBit(bits: seq<Felt>)
    requires |bits| > 0
    ensures Two(0) == 1 && BitsVal(bits[..1]) == bits[0]
  {
  }

  lemma NextCoefficient(i: nat)
    requires i < SCALAR_LOW_BITS
    ensures Two(i) < PRIME && Two(i + 1) < PRIME && Mul(Two(i), 2) == Two(i + 1)
  {
    PowersFit(i);
    PowersFit(i + 1);
    MulExact(Two(i), 2);
  }

  lemma NextTerm(bits: seq<Felt>, i: nat, acc: Felt, coeff: Felt)
    requires 0 < i < |bits| <= SCALAR_LOW_BITS && AllBits(bits) && acc == BitsVal(bits[..i]) && coeff == Two(i)
    ensures Add(acc, Mul(bits[i], coeff)) == BitsVal(bits[..i + 1])
  {
    assert bits[..i + 1] == bits[..i] + [bits[i]];
    BitsConcat(bits[..i], [bits[i]]);
    assert [bits[i]][1..] == [];
    BitsUnique(bits[..i + 1]);
    PowersFit(i + 1);
    assert bits[i] * coeff == coeff * bits[i];
    MulExact(bits[i], coeff);
    AddExact(acc, Mul(bits[i], coeff));
  }

  /** Comparing from the top bit down: `prefix` stays 1 while the bits agree with
      the modulus, and a 1 where the modulus has a 0 is refused. */
  ghost predicate Comparing(bits: seq<nat>, modulus: seq<nat>, i: nat, prefix: nat, ok: bool)
    requires |bits| == |modulus| && i <= |bits|
  {
    var b, m := BitsVal(bits[i..]), BitsVal(modulus[i..]);
    && (ok <==> b <= m)
    && (ok ==> prefix == if b == m then 1 else 0)
    && prefix <= 1
  }

  lemma CompareStep(bits: seq<nat>, modulus: seq<nat>, i: nat, prefix: nat, ok: bool)
    requires |bits| == |modulus| && i < |bits| && AllBits(bits) && AllBits(modulus)
    requires Comparing(bits, modulus, i + 1, prefix, ok)
    ensures Comparing(bits, modulus, i, if modulus[i] == 1 then prefix * bits[i] else prefix,
                      ok && (modulus[i] == 1 || prefix * bits[i] == 0))
  {
    assert bits[i..][1..] == bits[i + 1..] && modulus[i..][1..] == modulus[i + 1..];
    var b, m := BitsVal(bits[i + 1..]), BitsVal(modulus[i + 1..]);
    assert BitsVal(bits[i..]) == bits[i] + 2 * b;
    assert BitsVal(modulus[i..]) == modulus[i] + 2 * m;
    assert prefix * bits[i] == if prefix == 1 then bits[i] else 0;
  }

  lemma CompareStart(bits: seq<nat>, modulus: seq<nat>)
    requires |bits| == |modulus|
    ensures Comparing(bits, modulus, |bits|, 1, true)
  {
    assert bits[|bits|..] == [] && modulus[|bits|..] == [];
  }

  /** The prefix check on boolean bits accepts exactly the numbers below the
      modulus. */
  method CheckBelowModulus(bits: seq<Felt>, gate: Felt) returns (accepted: bool)
    requires |bits| == SCALAR_TOTAL_BITS && gate <= 1
    ensures gate == 0 ==> accepted
    ensures gate == 1 && AllBits(bits) ==> (accepted <==> BitsVal(bits) < GRUMPKIN_SCALAR_MODULUS)
  {
    hide BitsVal, BitsOf, Comparing, Mul, GatedEq, AllBits;
    var modulusBits := GrumpkinScalarModulusBitsLe();
    ghost var modulus := BitsOf(GRUMPKIN_SCALAR_MODULUS, SCALAR_TOTAL_BITS);
    ModulusFits();
    CompareStart(bits, modulus);
    var prefixEqual: Felt := 1;
    accepted := true;
    for bitIndex := SCALAR_TOTAL_BITS downto 0
      invariant gate == 0 ==> accepted
      invariant gate == 1 && AllBits(bits) ==> Comparing(bits, modulus, bitIndex, prefixEqual, accepted)
    {
      var bit := bits[bitIndex];
      if AllBits(bits) && gate == 1 {
        CompareStep(bits, modulus, bitIndex, prefixEqual, accepted);
        PrefixMul(bits, modulus, bitIndex, prefixEqual, accepted);
      }
      if modulusBits[bitIndex] {
        prefixEqual := Mul(prefixEqual, bit);
      } else {
        var prefixAndBit := Mul(prefixEqual, bit);
        GatedEqMeans(gate, prefixAndBit, 0);
        accepted := accepted && GatedEq(gate, prefixAndBit, 0);
      }
    }
    GatedEqMeans(gate, prefixEqual, 0);
    if AllBits(bits) && gate == 1 {
      CompareEnd(bits, modulus, prefixEqual, accepted);
    }
    accepted := accepted && GatedEq(gate, prefixEqual, 0);
  }

  lemma PrefixMul(bits: seq<Felt>, modulus: seq<nat>, i: nat, prefix: Felt, ok: bool)
    requires |bits| == |modulus| && i < |bits| && AllBits(bits) && AllBits(modulus)
    requires Comparing(bits, modulus, i + 1, prefix, ok)
    ensures Mul(prefix, bits[i]) == prefix * bits[i] && modulus[i] <= 1
  {
  }

  lemma CompareEnd(bits: seq<nat>, modulus: seq<nat>, prefix: nat, ok: bool)
    requires |bits| == |modulus| && Comparing(bits, modulus, 0, prefix, ok)
    ensures (ok && prefix == 0) <==> BitsVal(bits) < BitsVal(modulus)
  {
    assert bits[0..] == bits && modulus[0..] == modulus;
  }

  lemma ModulusFits()
    ensures BitsVal(BitsOf(GRUMPKIN_SCALAR_MODULUS, SCALAR_TOTAL_BITS)) == GRUMPKIN_SCALAR_MODULUS
    ensures AllBits(BitsOf(GRUMPKIN_SCALAR_MODULUS, SCALAR_TOTAL_BITS))
  {
    LargePowers();
    BitsOfVal(GRUMPKIN_SCALAR_MODULUS, SCALAR_TOTAL_BITS);
  }

  /** The bits the constraints are meant to allow. */
  ghost predicate Decomposes(lo: Felt, hi: Felt, bits: seq<Felt>) {
    && lo < Two(SCALAR_LOW_BITS) && hi < Two(SCALAR_HIGH_BITS)
    && lo + Two(SCALAR_LOW_BITS) * hi < GRUMPKIN_SCALAR_MODULUS
    && bits == BitsOf(lo, SCALAR_LOW_BITS) + BitsOf(hi, SCALAR_HIGH_BITS)
  }

  /** All constraints on one scalar. With the gate open they accept exactly the
      bits that `@compute` derives, for a scalar strictly below the modulus. */
  method EmitScalarConstraints(lo: Felt, hi: Felt, bits: seq<Felt>, gate: Felt) returns (accepted: bool)
    requires |bits| == SCALAR_TOTAL_BITS && gate <= 1 && Prime(PRIME)
    ensures gate == 0 ==> accepted
    ensures gate == 1 ==> (accepted <==> Decomposes(lo, hi, bits))
  {
    hide Decomposes, BitsVal, BitsOf, GatedEq, GatedBoolean, Prime, AllBits;
    accepted := EmitBooleans(bits, gate);
    var loBits, hiBits := bits[..SCALAR_LOW_BITS], bits[SCALAR_LOW_BITS..];
    var loValue := ReconstructScalarLimb(loBits);
    var hiValue := ReconstructScalarLimb(hiBits);
    GatedEqMeans(gate, loValue, lo);
    GatedEqMeans(gate, hiValue, hi);
    var below := CheckBelowModulus(bits, gate);
    DecomposesIff(lo, hi, bits);
    BitsSplit(bits);
    accepted := accepted && GatedEq(gate, loValue, lo) && GatedEq(gate, hiValue, hi) && below;
  }

  method EmitBooleans(bits: seq<Felt>, gate: Felt) returns (accepted: bool)
    requires gate <= 1 && Prime(PRIME)
    ensures accepted <==> gate == 0 || AllBits(bits)
  {
    hide Prime, GatedBoolean;
    accepted := true;
    for i := 0 to |bits|
      invariant accepted <==> gate == 0 || AllBits(bits[..i])
    {
      GatedBooleanMeans(gate, bits[i]);
      assert bits[..i + 1] == bits[..i] + [bits[i]];
      accepted := accepted && GatedBoolean(gate, bits[i]);
    }
    assert bits[..|bits|] == bits;
  }

  lemma BitsSplit(bits: seq<Felt>)
    requires |bits| == SCALAR_TOTAL_BITS
    ensures AllBits(bits) ==> AllBits(bits[..SCALAR_LOW_BITS]) && AllBits(bits[SCALAR_LOW_BITS..])
  {
  }

  /** The intended bits are the boolean ones that rebuild both limbs and a number
      below the modulus. */
  lemma DecomposesIff(lo: Felt, hi: Felt, bits: seq<Felt>)
    requires |bits| == SCALAR_TOTAL_BITS
    ensures Decomposes(lo, hi, bits) <==>
      AllBits(bits) && BitsVal(bits[..SCALAR_LOW_BITS]) == lo && BitsVal(bits[SCALAR_LOW_BITS..]) == hi
      && BitsVal(bits) < GRUMPKIN_SCALAR_MODULUS
  {
    hide BitsVal, BitsOf, Two;
    var a, b := bits[..SCALAR_LOW_BITS], bits[SCALAR_LOW_BITS..];
    assert bits == a + b;
    BitsConcat(a, b);
    if Decomposes(lo, hi, bits) {
      assert a == BitsOf(lo, SCALAR_LOW_BITS) && b == BitsOf(hi, SCALAR_HIGH_BITS);
      BitsOfVal(lo, SCALAR_LOW_BITS);
      BitsOfVal(hi, SCALAR_HIGH_BITS);
    }
    if AllBits(bits) {
      BitsUnique(a);
      BitsUnique(b);
    }
  }
}
