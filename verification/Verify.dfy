/** Signature verification (`verify.rs`, `curve.rs`): the table its caller builds
    for the joint multiplication, and the verdict. */
module Verify {
  import opened Felts
  import opened Limbs
  import opened Solinas
  import opened CurveOrders
  import opened Barrett
  import opened ModArith
  import opened Inversion
  import opened Jacobians
  import opened PointLimbs
  import opened Shamir
  import opened CurveConstants

  // ── The curve equation ───────────────────────────────────────────────────

  /** `x^3 + a x + b`, by the formula of the curve. */
  method CurveRhs(id: CurveId, x: seq<Felt>) returns (r: seq<Felt>)
    requires FieldElement(id, x)
    ensures FieldElement(id, r)
    ensures Modulus(id) > 0
         && Cong(Val(r), Val(x) * Val(x) * Val(x) + CoefficientA(id) * Val(x) + Val(CoefficientB(id)), Modulus(id))
  {
    hide Val, Modulus, MulP, AddP, SubP, FieldElement, Cong;
    ConstantsInField(id);
    var xSq := FieldMul(id, x, x);
    var xCu := FieldMul(id, xSq, x);
    if id.Secp256k1? {
      r := FieldAdd(id, xCu, CoefficientB(id));
    } else {
      var threeX := FieldMul(id, [3, 0, 0, 0], x);
      var cuMinus3x := FieldSub(id, xCu, threeX);
      r := FieldAdd(id, cuMinus3x, CoefficientB(id));
    }
    ValOf4(3, 0, 0, 0);
    RhsCorrect(Modulus(id), Val(x), Val(CoefficientB(id)), Val([3, 0, 0, 0]));
  }

  lemma RhsCorrect(m: nat, x: nat, b: nat, three: nat)
    requires m > 0
    ensures var cu := MulP(m, MulP(m, x, x), x);
            && Cong(AddP(m, cu, b), x * x * x + b, m)
            && Cong(AddP(m, SubP(m, cu, MulP(m, three, x)), b), x * x * x - three * x + b, m)
  {
    hide Cong, MulP, AddP, SubP;
    CongRefl(x, m);
    CongRefl(b, m);
    CongRefl(three, m);
    MulCong(m, x, x, x, x);
    MulCong(m, MulP(m, x, x), x * x, x, x);
    var cu := MulP(m, MulP(m, x, x), x);
    AddCong(m, cu, x * x * x, b, b);
    MulCong(m, three, three, x, x);
    SubCong(m, cu, x * x * x, MulP(m, three, x), three * x);
    AddCong(m, SubP(m, cu, MulP(m, three, x)), x * x * x - three * x, b, b);
  }

  // ── The table ────────────────────────────────────────────────────────────

  /** What is known of the curve: its addition is a group and its order prime. */
  ghost predicate CurveParameters(id: CurveId, c: Curve) {
    && CurveGroup(c) && c.m == Modulus(id) && c.a == CoefficientA(id) && c.b == Val(CoefficientB(id))
    && Prime(Val(Order(id)))
  }

  lemma GeneratorPoint(id: CurveId, c: Curve)
    requires CurveParameters(id, c)
    ensures c.m > 0 && OnCurve(c, PointOf(Generator(id)))
  {
    hide Val, Cong, CurveGroup, Prime;
    GeneratorOnCurve(id);
    ConstantsInField(id);
  }

  ghost predicate KeyOnCurve(id: CurveId, c: Curve, p: AffineLimbs) {
    CurveParameters(id, c) && OnCurve(c, PointOf(p))
  }

  /** `G + P` for the table: affine coordinates, or the flag and (0, 0). */
  method SumEntry(id: CurveId, p: AffineLimbs, ghost c: Curve) returns (gPlusP: AffineLimbs, infinite: Felt)
    requires FieldAffine(id, p)
    ensures Entries(id, Generator(id), p, gPlusP, infinite)
    ensures KeyOnCurve(id, c, p) ==> Table(id, c, Generator(id), p, gPlusP, infinite)
  {
    hide Val, FieldElement, Modulus, CoefficientA, KeyOnCurve, Table, AddMixedComplete, ToAffine;
    ConstantsInField(id);
    ConstantLimbs(id);
    var g := Generator(id);
    var gAsJacobian := JacobianLimbs(g.x, g.y, ONE_LIMBS);
    var sum := PointAddMixedComplete(id, gAsJacobian, p.x, p.y, 0);
    var safe;
    safe, infinite := Invertible(id, sum);
    var x, y := JacobianToAffine(id, safe);
    gPlusP := AffineLimbs(x, y);
    if KeyOnCurve(id, c, p) {
      EntryRight(id, c, p, sum, safe, gPlusP, infinite);
    }
  }

  lemma EntryRight(id: CurveId, c: Curve, p: AffineLimbs, sum: JacobianLimbs, safe: JacobianLimbs, gPlusP: AffineLimbs, infinite: Felt)
    requires KeyOnCurve(id, c, p) && FieldAffine(id, p) && FieldAffine(id, gPlusP) && Modulus(id) > 1
    requires Value(sum) == AddMixedComplete(Modulus(id), CoefficientA(id), Jacobian(Val(Generator(id).x), Val(Generator(id).y), 1),
                                            Val(p.x), Val(p.y), false)
    requires infinite == if Val(sum.z) == 0 then 1 else 0
    requires safe == if infinite == 1 then JacobianLimbs(sum.x, sum.y, ONE_LIMBS) else sum
    requires (Val(gPlusP.x), Val(gPlusP.y)) == ToAffine(Modulus(id), Value(safe))
    ensures Table(id, c, Generator(id), p, gPlusP, infinite)
  {
    hide Val, FieldElement, Modulus, CoefficientA, AddMixedComplete, ToAffine, OnCurve, Sum, Stands, Prime;
    ConstantsInField(id);
    GeneratorPoint(id, c);
    var g := Generator(id);
    FieldBound(id, g);
    FieldBound(id, p);
    AffineStands(c.m, Val(g.x), Val(g.y));
    AddMixedCorrect(c, Jacobian(Val(g.x), Val(g.y), 1), PointOf(g), Val(p.x), Val(p.y), false);
    Normalised(c.m, Value(sum), Sum(c, PointOf(g), PointOf(p)));
    InfiniteSum(c, Val(g.x), Val(g.y), Val(p.x), Val(p.y));
    if infinite == 1 {
      OriginToAffine(c.m, Value(safe));
    }
  }

  lemma FieldBound(id: CurveId, q: AffineLimbs)
    requires FieldAffine(id, q)
    ensures Val(q.x) < Modulus(id) && Val(q.y) < Modulus(id)
  {
  }

  /** The sum of an affine point whose ordinate is not zero and another point is
      infinity only as the constant. */
  lemma InfiniteSum(c: Curve, x1: nat, y1: nat, x2: nat, y2: nat)
    requires ValidCurve(c) && OnCurve(c, Affine(x1, y1)) && OnCurve(c, Affine(x2, y2)) && 0 < y1
    ensures AddMixedComplete(c.m, c.a, Jacobian(x1, y1, 1), x2, y2, false).z == 0 ==>
              AddMixedComplete(c.m, c.a, Jacobian(x1, y1, 1), x2, y2, false) == INFINITY
  {
    hide Cong, Prime, MixedH, MixedS, AddMixedRegular, Double, OnCurve, Slope, MulP, SubP, InverseMod, Stands;
    var j, a := Jacobian(x1, y1, 1), Affine(x1, y1);
    InField(c, a);
    InField(c, Affine(x2, y2));
    AffineStands(c.m, x1, y1);
    FlagsExact(c.m, j, a, x2, y2);
    if x1 != x2 {
      RegularCorrect(c, j, a, x2, y2);
      StandsZ(c.m, AddMixedRegular(c.m, j, x2, y2), Sum(c, a, Affine(x2, y2)));
    } else if y1 == y2 {
      TangentSlope(c, a);
      DoubleCorrect(c, j, a);
      StandsZ(c.m, Double(c.m, c.a, j), Sum(c, a, a));
    }
  }

  lemma InField(c: Curve, p: Point)
    requires c.m > 0 && OnCurve(c, p) && p.Affine?
    ensures p.x < c.m && p.y < c.m
  {
  }

  // ── The verdict ──────────────────────────────────────────────────────────

  /** `u1 G + u2 P` for a hash `z` and a signature `(r, s)`. */
  ghost function Recomputed(id: CurveId, c: Curve, p: Point, r: nat, s: nat, z: nat): Point
    requires c.m > 1 && Val(Order(id)) > 1
  {
    var n := Val(Order(id));
    Combination(c, PointOf(Generator(id)), p, (z * InverseMod(n, s)) % n, (r * InverseMod(n, s)) % n)
  }

  /** Section 4.1.4 of SEC 1, with a key that is checked, low `s`, and an abscissa
      that is not reduced before it is compared. */
  ghost predicate Accepts(id: CurveId, c: Curve, p: AffineLimbs, r: nat, s: nat, z: nat)
    requires c.m > 1 && Val(Order(id)) > 1
  {
    && OnCurve(c, PointOf(p))
    && 0 < r < Val(Order(id)) && 0 < s && 2 * s <= Val(Order(id))
    && var sum := Recomputed(id, c, PointOf(p), r, s, z);
       sum.Affine? && sum.x == r
  }

  /** The flags are multiplied in order. */
  method Conjunction(flags: seq<Felt>) returns (valid: Felt)
    requires |flags| > 0
    ensures (forall i :: 0 <= i < |flags| ==> flags[i] == 1) ==> valid == 1
    ensures (exists i :: 0 <= i < |flags| && flags[i] == 0) ==> valid == 0
  {
    valid := flags[0];
    for i := 1 to |flags|
      invariant (forall j :: 0 <= j < i ==> flags[j] == 1) ==> valid == 1
      invariant (exists j :: 0 <= j < i && flags[j] == 0) ==> valid == 0
    {
      valid := Mul(valid, flags[i]);
    }
  }

  /** The flags that need the arithmetic of the curve: the key lies on it, the sum
      is finite, its abscissa is below the order, and equals `r`. */
  method CurveFlags(id: CurveId, p: AffineLimbs, r: seq<Felt>, s: seq<Felt>, z: seq<Felt>, ghost c: Curve)
    returns (onCurve: Felt, rIsFinite: Felt, rxLtN: Felt, rMatch: Felt)
    requires FieldAffine(id, p) && IsLimbs(r, LIMBS) && IsLimbs(s, LIMBS) && IsLimbs(z, LIMBS) && Val(s) < Val(Order(id))
    ensures onCurve <= 1 && rIsFinite <= 1 && rxLtN <= 1 && rMatch <= 1
    ensures CurveParameters(id, c) ==> c.m > 1 && Val(Order(id)) > 1 && (onCurve == 1 <==> OnCurve(c, PointOf(p)))
    ensures KeyOnCurve(id, c, p) ==>
              var sum := Recomputed(id, c, PointOf(p), Val(r), Val(s), Val(z));
              0 < Val(r) < Val(Order(id)) ==> (rIsFinite == 1 && rxLtN == 1 && rMatch == 1 <==> sum.Affine? && sum.x == Val(r))
  {
    hide Val, FieldElement, Modulus, CoefficientA, CoefficientB, Generator, KeyOnCurve, CurveParameters, Table, Entries, Answers, OnCurve,
         Pow, Order, BarrettModulus, CurveOrder, Cong, MulP, Recomputed;
    OrderFacts(id);
    ConstantsInField(id);
    var pySq := FieldMul(id, p.y, p.y);
    var rhs := CurveRhs(id, p.x);
    onCurve := EqualResidues(id, pySq, rhs);
    var sInv := InverseOfScalar(id, s);
    var u1 := ScalarProduct(id, z, sInv);
    var u2 := ScalarProduct(id, r, sInv);
    var gPlusP, infinite := SumEntry(id, p, c);
    var x, y, isInfinity := JointScalarMul(id, Generator(id), p, gPlusP, infinite, u1, u2, c);
    rIsFinite := NotBitOf(isInfinity);
    ElementBelow(id, x);
    rxLtN := LtBool(x, Order(id));
    rMatch := EqBool(x, r);
    if CurveParameters(id, c) {
      ParameterFacts(id, c);
      ElementBelow(id, rhs);
      EquationChecked(id, c, p, Val(pySq), Val(rhs));
    }
    if KeyOnCurve(id, c, p) {
      FlagsMean(c, PointOf(Generator(id)), PointOf(p), infinite, Val(u1), Val(u2), Val(x), Val(y), isInfinity, Val(r), Val(Order(id)));
      RecomputedIs(id, c, PointOf(p), Val(r), Val(s), Val(z));
    }
  }

  method EqualResidues(id: CurveId, a: seq<Felt>, b: seq<Felt>) returns (eq: Felt)
    requires FieldElement(id, a) && FieldElement(id, b)
    ensures eq == if Val(a) == Val(b) then 1 else 0
  {
    eq := EqBool(a, b);
  }

  method InverseOfScalar(id: CurveId, s: seq<Felt>) returns (inv: seq<Felt>)
    requires IsLimbs(s, LIMBS) && Val(s) < Val(Order(id))
    ensures IsLimbs(inv, LIMBS) && Val(Order(id)) > 1 && Val(inv) == InverseMod(Val(Order(id)), Val(s)) < Val(Order(id))
  {
    hide Val, Pow, BarrettModulus, Prime, CurveOrder, Order;
    OrderFacts(id);
    inv := InvModN(s, Order(id));
    SmallMod(Val(s), Val(Order(id)));
  }

  /** One operand may be any 256-bit number, the other is reduced. */
  method ScalarProduct(id: CurveId, a: seq<Felt>, b: seq<Felt>) returns (r: seq<Felt>)
    requires IsLimbs(a, LIMBS) && IsLimbs(b, LIMBS) && Val(b) < Val(Order(id))
    ensures IsLimbs(r, LIMBS) && Val(Order(id)) > 1 && Val(r) == (Val(a) * Val(b)) % Val(Order(id))
  {
    hide Val, BarrettModulus, CurveOrder, Order, Estimable;
    OrderFacts(id);
    OneReduced(Order(id), a, b);
    r := MulModDispatch(a, b, Order(id));
  }

  lemma EquationChecked(id: CurveId, c: Curve, p: AffineLimbs, ySq: nat, rhs: nat)
    requires CurveParameters(id, c) && FieldAffine(id, p) && c.m == Modulus(id) > 0
    requires ySq == MulP(c.m, Val(p.y), Val(p.y)) && rhs < c.m
    requires Cong(rhs, Val(p.x) * Val(p.x) * Val(p.x) + CoefficientA(id) * Val(p.x) + Val(CoefficientB(id)), c.m)
    ensures ySq == rhs <==> OnCurve(c, PointOf(p))
  {
    hide Val, Cong, CoefficientA, CoefficientB, CurveGroup, Modulus, Prime, Generator;
    FieldBound(id, p);
    var x, y := Val(p.x), Val(p.y);
    var e := x * x * x + c.a * x + c.b;
    CongMod(y * y, c.m);
    if ySq == rhs {
      CongSym(ySq, y * y, c.m);
      CongTrans(y * y, rhs, e, c.m);
    }
    if Cong(y * y, e, c.m) {
      CongTrans(ySq, y * y, e, c.m);
      CongSym(rhs, e, c.m);
      CongTrans(ySq, e, rhs, c.m);
      CongSmall(ySq, rhs, c.m);
    }
  }

  lemma ParameterFacts(id: CurveId, c: Curve)
    requires CurveParameters(id, c)
    ensures c.m > 1 && c.m == Modulus(id) && c.a == CoefficientA(id) && c.b == Val(CoefficientB(id))
  {
  }

  lemma ElementBelow(id: CurveId, a: seq<Felt>)
    requires FieldElement(id, a)
    ensures IsLimbs(a, LIMBS) && Val(a) < Modulus(id)
  {
  }

  lemma RecomputedIs(id: CurveId, c: Curve, p: Point, r: nat, s: nat, z: nat)
    requires c.m > 1 && Val(Order(id)) > 1
    ensures var n := Val(Order(id));
            Recomputed(id, c, p, r, s, z)
              == Combination(c, PointOf(Generator(id)), p, (z * InverseMod(n, s)) % n, (r * InverseMod(n, s)) % n)
  {
  }

  /** A missed infinity is reported with abscissa zero, which no `r` matches. */
  lemma FlagsMean(c: Curve, g: Point, p: Point, infinite: Felt, u1: nat, u2: nat, x: nat, y: nat, isInfinity: Felt, r: nat, n: nat)
    requires c.m > 1 && Answers(c, g, p, infinite, u1, u2, x, y, isInfinity) && isInfinity <= 1
    ensures 0 < r < n ==> (isInfinity == 0 && x < n && x == r <==> var sum := Combination(c, g, p, u1, u2); sum.Affine? && sum.x == r)
  {
    hide Combination;
  }

  /** The verdict: `others` stands for what the last four flags are when the
      arithmetic is run on a key or an `s` out of range; it does not matter. */
  method VerifyResult(id: CurveId, pkX: seq<Felt>, pkY: seq<Felt>, r: seq<Felt>, s: seq<Felt>, z: seq<Felt>, others: seq<Felt>,
                      ghost c: Curve)
    returns (valid: Felt)
    requires IsLimbs(pkX, LIMBS) && IsLimbs(pkY, LIMBS) && IsLimbs(r, LIMBS) && IsLimbs(s, LIMBS) && IsLimbs(z, LIMBS) && |others| == 4
    ensures CurveParameters(id, c) ==>
              && c.m > 1 && Val(Order(id)) > 1
              && valid == if Accepts(id, c, AffineLimbs(pkX, pkY), Val(r), Val(s), Val(z)) then 1 else 0
  {
    hide Val, FieldElement, CurveParameters, Recomputed, OnCurve, Order;
    OrderFacts(id);
    HalfOrder(id);
    FieldFacts(id);
    ConstantLimbs(id);
    var pkxLtP := LtBool(pkX, FieldLimbs(id));
    var pkyLtP := LtBool(pkY, FieldLimbs(id));
    var rLtN := LtBool(r, Order(id));
    var sLtN := LtBool(s, Order(id));
    var sIsLow := LtBool(s, HalfOrderPlusOne(id));
    var rIsZero := EqBool(r, ZERO_LIMBS);
    var rIsNonzero := NotBitOf(rIsZero);
    var p := AffineLimbs(pkX, pkY);
    var onCurve, rIsFinite, rxLtN, rMatch := others[0], others[1], others[2], others[3];
    if pkxLtP == 1 && pkyLtP == 1 && sLtN == 1 {
      KeyInField(id, p);
      onCurve, rIsFinite, rxLtN, rMatch := CurveFlags(id, p, r, s, z, c);
    }
    var flags := [pkxLtP, pkyLtP, rLtN, sLtN, sIsLow, rIsNonzero, onCurve, rIsFinite, rxLtN, rMatch];
    valid := Conjunction(flags);
    if CurveParameters(id, c) {
      ParameterFacts(id, c);
      AcceptsInRange(id, c, p, Val(r), Val(s), Val(z));
      ZeroScalar(id, c, PointOf(p), Val(r), Val(z));
      TenFlags(flags);
    }
  }

  /** Ten flags one by one. */
  lemma TenFlags(f: seq<Felt>)
    requires |f| == 10
    ensures (forall i :: 0 <= i < |f| ==> f[i] == 1) <==>
              f[0] == f[1] == f[2] == f[3] == f[4] == f[5] == f[6] == f[7] == f[8] == f[9] == 1
    ensures (exists i :: 0 <= i < |f| && f[i] == 0) <==>
              f[0] == 0 || f[1] == 0 || f[2] == 0 || f[3] == 0 || f[4] == 0 || f[5] == 0 || f[6] == 0 || f[7] == 0 || f[8] == 0 || f[9] == 0
  {
  }

  lemma AcceptsInRange(id: CurveId, c: Curve, p: AffineLimbs, r: nat, s: nat, z: nat)
    requires c.m > 1 && Val(Order(id)) > 1
    ensures Accepts(id, c, p, r, s, z) ==> Val(p.x) < c.m && Val(p.y) < c.m && s < Val(Order(id))
  {
    hide Recomputed;
  }

  /** Zero has no inverse: the sum is infinity. */
  lemma ZeroScalar(id: CurveId, c: Curve, p: Point, r: nat, z: nat)
    requires c.m > 1 && Val(Order(id)) > 2
    ensures Recomputed(id, c, p, r, 0, z) == Infinity
  {
    hide Val, Order, Pow;
    InverseOfZero(Val(Order(id)));
    SmallMod(0, Val(Order(id)));
    SmallCombinations(c, PointOf(Generator(id)), p);
  }

  lemma KeyInField(id: CurveId, p: AffineLimbs)
    requires IsLimbs(p.x, LIMBS) && IsLimbs(p.y, LIMBS) && Val(p.x) < Val(FieldLimbs(id)) && Val(p.y) < Val(FieldLimbs(id))
    ensures FieldAffine(id, p)
  {
  }
}
