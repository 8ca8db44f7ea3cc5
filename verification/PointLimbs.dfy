/** The point operations on limbs (`point.rs`): each computes the formula of
    `Jacobians` on the values of its operands. */
module PointLimbs {
  import opened Felts
  import opened Limbs
  import opened Solinas
  import opened Barrett
  import opened ModArith
  import opened Inversion
  import opened Jacobians

  datatype CurveId = Secp256k1 | Secp256r1

  function FieldLimbs(id: CurveId): seq<Felt> {
    if id.Secp256k1? then SECP256K1_P else SECP256R1_P
  }

  function Modulus(id: CurveId): (m: nat) {
    Val(FieldLimbs(id))
  }

  function CoefficientA(id: CurveId): int {
    if id.Secp256k1? then 0 else -3
  }

  lemma FieldFacts(id: CurveId)
    ensures IsLimbs(FieldLimbs(id), LIMBS) && BarrettModulus(FieldLimbs(id)) && Modulus(id) > 2
  {
    CurveModuli(FieldLimbs(id));
  }

  /** Limbs of a residue modulo the field prime. */
  predicate FieldElement(id: CurveId, a: seq<Felt>) {
    IsLimbs(a, LIMBS) && Val(a) < Modulus(id)
  }

  method FieldMul(id: CurveId, a: seq<Felt>, b: seq<Felt>) returns (r: seq<Felt>)
    requires FieldElement(id, a) && FieldElement(id, b)
    ensures Modulus(id) > 0 && FieldElement(id, r) && Val(r) == MulP(Modulus(id), Val(a), Val(b))
  {
    hide Val, BarrettModulus;
    FieldFacts(id);
    r := MulModDispatch(a, b, FieldLimbs(id));
  }

  method FieldAdd(id: CurveId, a: seq<Felt>, b: seq<Felt>) returns (r: seq<Felt>)
    requires FieldElement(id, a) && FieldElement(id, b)
    ensures Modulus(id) > 0 && FieldElement(id, r) && Val(r) == AddP(Modulus(id), Val(a), Val(b))
  {
    hide Val, BarrettModulus;
    FieldFacts(id);
    r := AddModN(a, b, FieldLimbs(id));
  }

  method FieldSub(id: CurveId, a: seq<Felt>, b: seq<Felt>) returns (r: seq<Felt>)
    requires FieldElement(id, a) && FieldElement(id, b)
    ensures Modulus(id) > 0 && FieldElement(id, r) && Val(r) == SubP(Modulus(id), Val(a), Val(b))
  {
    hide Val, BarrettModulus;
    FieldFacts(id);
    r := SubModN(a, b, FieldLimbs(id));
  }

  method FieldDbl(id: CurveId, a: seq<Felt>) returns (r: seq<Felt>)
    requires FieldElement(id, a)
    ensures Modulus(id) > 0 && FieldElement(id, r) && Val(r) == DblP(Modulus(id), Val(a))
  {
    r := FieldAdd(id, a, a);
  }

  method FieldInv(id: CurveId, a: seq<Felt>) returns (r: seq<Felt>)
    requires FieldElement(id, a)
    ensures Modulus(id) > 1 && FieldElement(id, r) && Val(r) == InverseMod(Modulus(id), Val(a))
  {
    hide Val, BarrettModulus, Prime, Pow;
    FieldFacts(id);
    r := InvModN(a, FieldLimbs(id));
    SmallMod(Val(a), Modulus(id));
  }

  // ── Points ───────────────────────────────────────────────────────────────

  datatype JacobianLimbs = JacobianLimbs(x: seq<Felt>, y: seq<Felt>, z: seq<Felt>)

  predicate FieldPoint(id: CurveId, p: JacobianLimbs) {
    FieldElement(id, p.x) && FieldElement(id, p.y) && FieldElement(id, p.z)
  }

  function Value(p: JacobianLimbs): Jacobian {
    Jacobian(Val(p.x), Val(p.y), Val(p.z))
  }

  const ZERO_LIMBS: seq<Felt> := [0, 0, 0, 0]
  const ONE_LIMBS: seq<Felt> := [1, 0, 0, 0]
  const INFINITY_LIMBS: JacobianLimbs := JacobianLimbs(ZERO_LIMBS, ZERO_LIMBS, ZERO_LIMBS)

  lemma ConstantLimbs(id: CurveId)
    ensures FieldElement(id, ZERO_LIMBS) && Val(ZERO_LIMBS) == 0
    ensures FieldElement(id, ONE_LIMBS) && Val(ONE_LIMBS) == 1
  {
    ValOf4(0, 0, 0, 0);
    ValOf4(1, 0, 0, 0);
    FieldFacts(id);
  }

  method PointDoubleAZero(id: CurveId, p: JacobianLimbs) returns (r: JacobianLimbs)
    requires FieldPoint(id, p)
    ensures Modulus(id) > 0 && FieldPoint(id, r) && Value(r) == DoubleAZero(Modulus(id), Value(p))
  {
    hide FieldElement, Val, Modulus, MulP, AddP, SubP, DblP;
    var aVal := FieldMul(id, p.y, p.y);
    var xA := FieldMul(id, p.x, aVal);
    var xA2 := FieldDbl(id, xA);
    var bVal := FieldDbl(id, xA2);
    var aSq := FieldMul(id, aVal, aVal);
    var aSq2 := FieldDbl(id, aSq);
    var aSq4 := FieldDbl(id, aSq2);
    var cVal := FieldDbl(id, aSq4);
    var x1Sq := FieldMul(id, p.x, p.x);
    var x1Sq2 := FieldDbl(id, x1Sq);
    var dVal := FieldAdd(id, x1Sq2, x1Sq);
    var dSq := FieldMul(id, dVal, dVal);
    var twoB := FieldDbl(id, bVal);
    var x3 := FieldSub(id, dSq, twoB);
    var bMinusX3 := FieldSub(id, bVal, x3);
    var dTimesDiff := FieldMul(id, dVal, bMinusX3);
    var y3 := FieldSub(id, dTimesDiff, cVal);
    var yZ := FieldMul(id, p.y, p.z);
    var z3 := FieldDbl(id, yZ);
    return JacobianLimbs(x3, y3, z3);
  }

  method PointDoubleANeg3(id: CurveId, p: JacobianLimbs) returns (r: JacobianLimbs)
    requires FieldPoint(id, p)
    ensures Modulus(id) > 0 && FieldPoint(id, r) && Value(r) == DoubleANeg3(Modulus(id), Value(p))
  {
    hide FieldElement, Val, Modulus, MulP, AddP, SubP, DblP;
    var delta := FieldMul(id, p.z, p.z);
    var gamma := FieldMul(id, p.y, p.y);
    var beta := FieldMul(id, p.x, gamma);
    var xMinusDelta := FieldSub(id, p.x, delta);
    var xPlusDelta := FieldAdd(id, p.x, delta);
    var diffProd := FieldMul(id, xMinusDelta, xPlusDelta);
    var twoDiff := FieldDbl(id, diffProd);
    var alpha := FieldAdd(id, twoDiff, diffProd);
    var alphaSq := FieldMul(id, alpha, alpha);
    var beta2 := FieldDbl(id, beta);
    var beta4 := FieldDbl(id, beta2);
    var beta8 := FieldDbl(id, beta4);
    var x3 := FieldSub(id, alphaSq, beta8);
    var yPlusZ := FieldAdd(id, p.y, p.z);
    var yzSq := FieldMul(id, yPlusZ, yPlusZ);
    var yzMinusGamma := FieldSub(id, yzSq, gamma);
    var z3 := FieldSub(id, yzMinusGamma, delta);
    var gammaSq := FieldMul(id, gamma, gamma);
    var gammaSq2 := FieldDbl(id, gammaSq);
    var gammaSq4 := FieldDbl(id, gammaSq2);
    var gammaSq8 := FieldDbl(id, gammaSq4);
    var fourBetaMinusX3 := FieldSub(id, beta4, x3);
    var alphaTimes := FieldMul(id, alpha, fourBetaMinusX3);
    var y3 := FieldSub(id, alphaTimes, gammaSq8);
    return JacobianLimbs(x3, y3, z3);
  }

  method PointDouble(id: CurveId, p: JacobianLimbs) returns (r: JacobianLimbs)
    requires FieldPoint(id, p)
    ensures Modulus(id) > 0 && FieldPoint(id, r) && Value(r) == Double(Modulus(id), CoefficientA(id), Value(p))
  {
    if id.Secp256k1? {
      r := PointDoubleAZero(id, p);
    } else {
      r := PointDoubleANeg3(id, p);
    }
  }

  /** The regular sum, and whether the abscissas and the ordinates agree. */
  method AddMixedRegularWithFlags(id: CurveId, p: JacobianLimbs, x2: seq<Felt>, y2: seq<Felt>)
    returns (r: JacobianLimbs, sameX: Felt, sameY: Felt)
    requires FieldPoint(id, p) && FieldElement(id, x2) && FieldElement(id, y2)
    ensures Modulus(id) > 0 && FieldPoint(id, r) && Value(r) == AddMixedRegular(Modulus(id), Value(p), Val(x2), Val(y2))
    ensures sameX == if MixedH(Modulus(id), Value(p), Val(x2)) == 0 then 1 else 0
    ensures sameY == if MixedS(Modulus(id), Value(p), Val(y2)) == 0 then 1 else 0
  {
    hide FieldElement, Val, Modulus, MulP, AddP, SubP, DblP;
    ConstantLimbs(id);
    var z1z1 := FieldMul(id, p.z, p.z);
    var u2 := FieldMul(id, x2, z1z1);
    var y2z1 := FieldMul(id, y2, p.z);
    var s2 := FieldMul(id, y2z1, z1z1);
    var h := FieldSub(id, u2, p.x);
    sameX := IsZero(id, h);
    var hh := FieldMul(id, h, h);
    var hh2 := FieldDbl(id, hh);
    var i := FieldDbl(id, hh2);
    var j := FieldMul(id, h, i);
    var s2MinusY1 := FieldSub(id, s2, p.y);
    sameY := IsZero(id, s2MinusY1);
    var rr := FieldDbl(id, s2MinusY1);
    var v := FieldMul(id, p.x, i);
    var rSq := FieldMul(id, rr, rr);
    var twoV := FieldDbl(id, v);
    var rSqMinusJ := FieldSub(id, rSq, j);
    var x3 := FieldSub(id, rSqMinusJ, twoV);
    var vMinusX3 := FieldSub(id, v, x3);
    var rTimesDiff := FieldMul(id, rr, vMinusX3);
    var y1J := FieldMul(id, p.y, j);
    var twoY1J := FieldDbl(id, y1J);
    var y3 := FieldSub(id, rTimesDiff, twoY1J);
    var z1PlusH := FieldAdd(id, p.z, h);
    var z1phSq := FieldMul(id, z1PlusH, z1PlusH);
    var z1phSqMinusZ1z1 := FieldSub(id, z1phSq, z1z1);
    var z3 := FieldSub(id, z1phSqMinusZ1z1, hh);
    r := JacobianLimbs(x3, y3, z3);
  }

  method IsZero(id: CurveId, a: seq<Felt>) returns (bit: Felt)
    requires FieldElement(id, a)
    ensures bit == if Val(a) == 0 then 1 else 0
  {
    ConstantLimbs(id);
    bit := EqBool(a, ZERO_LIMBS);
  }

  method SelectJacobian(bit: Felt, ifOne: JacobianLimbs, ifZero: JacobianLimbs, ghost id: CurveId) returns (r: JacobianLimbs)
    requires bit <= 1 && FieldPoint(id, ifOne) && FieldPoint(id, ifZero)
    ensures r == if bit == 1 then ifOne else ifZero
  {
    var x := SelectLimbs(bit, ifOne.x, ifZero.x);
    var y := SelectLimbs(bit, ifOne.y, ifZero.y);
    var z := SelectLimbs(bit, ifOne.z, ifZero.z);
    return JacobianLimbs(x, y, z);
  }

  lemma BitProduct(a: Felt, b: Felt)
    requires a <= 1 && b <= 1
    ensures Mul(a, b) == if a == 1 && b == 1 then 1 else 0
  {
  }

  method PointAddMixedComplete(id: CurveId, p: JacobianLimbs, x2: seq<Felt>, y2: seq<Felt>, qIsInfinity: Felt) returns (r: JacobianLimbs)
    requires FieldPoint(id, p) && FieldElement(id, x2) && FieldElement(id, y2) && qIsInfinity <= 1
    ensures Modulus(id) > 0 && FieldPoint(id, r)
    ensures Value(r) == AddMixedComplete(Modulus(id), CoefficientA(id), Value(p), Val(x2), Val(y2), qIsInfinity == 1)
  {
    hide FieldElement, Val, Modulus, MixedH, MixedS, AddMixedRegular, Double, Mul, CoefficientA;
    ConstantLimbs(id);
    var regular, sameX, sameY := AddMixedRegularWithFlags(id, p, x2, y2);
    var doubled := PointDouble(id, p);
    var p1IsInfinity := IsZero(id, p.z);
    BitProduct(sameX, sameY);
    var samePoint := Mul(sameX, sameY);
    BitProduct(sameX, NotBitOf(sameY));
    var inversePoint := Mul(sameX, NotBitOf(sameY));
    var afterInverse := SelectJacobian(inversePoint, INFINITY_LIMBS, regular, id);
    var afterDouble := SelectJacobian(samePoint, doubled, afterInverse, id);
    var afterQ := SelectJacobian(qIsInfinity, p, afterDouble, id);
    var qAsJacobian := JacobianLimbs(x2, y2, ONE_LIMBS);
    var qOrInfinity := SelectJacobian(qIsInfinity, INFINITY_LIMBS, qAsJacobian, id);
    r := SelectJacobian(p1IsInfinity, qOrInfinity, afterQ, id);
  }

  method JacobianToAffine(id: CurveId, p: JacobianLimbs) returns (x: seq<Felt>, y: seq<Felt>)
    requires FieldPoint(id, p)
    ensures Modulus(id) > 1 && FieldElement(id, x) && FieldElement(id, y)
    ensures (Val(x), Val(y)) == ToAffine(Modulus(id), Value(p))
  {
    hide FieldElement, Val, Modulus, MulP, InverseMod;
    var zInv := FieldInv(id, p.z);
    var zInvSq := FieldMul(id, zInv, zInv);
    var zInvCu := FieldMul(id, zInvSq, zInv);
    x := FieldMul(id, p.x, zInvSq);
    y := FieldMul(id, p.y, zInvCu);
  }
}
