/** Joint scalar multiplication by Shamir's trick (`point.rs`) and the table its
    caller builds (`verify.rs`). The group laws of the curve are a hypothesis. When
    `G + P` is infinity, an identity that is reached by two odd scalars is missed;
    the accumulator is known exactly in that case as well. */
module Shamir {
  import opened Felts
  import opened Limbs
  import opened Solinas
  import opened ModArith
  import opened PowersOfTwo
  import opened Inversion
  import opened Jacobians
  import opened PointLimbs

  // ── Scalar multiples ─────────────────────────────────────────────────────

  /** The points of the curve form an abelian group under the chord and tangent
      sum. */
  ghost predicate CurveGroup(c: Curve) {
    && ValidCurve(c)
    && (forall p, q :: OnCurve(c, p) && OnCurve(c, q) ==> OnCurve(c, Sum(c, p, q)) && Sum(c, p, q) == Sum(c, q, p))
    && (forall p, q, r :: OnCurve(c, p) && OnCurve(c, q) && OnCurve(c, r) ==> Sum(c, Sum(c, p, q), r) == Sum(c, p, Sum(c, q, r)))
  }

  ghost function Times(c: Curve, k: nat, p: Point): Point
    requires c.m > 1
  {
    if k == 0 then Infinity else Sum(c, Times(c, k - 1, p), p)
  }

  lemma GroupValid(c: Curve)
    requires CurveGroup(c)
    ensures ValidCurve(c) && c.m > 3 && OnCurve(c, Infinity)
  {
  }

  lemma GroupClosed(c: Curve, p: Point, q: Point)
    requires CurveGroup(c) && c.m > 1 && OnCurve(c, p) && OnCurve(c, q)
    ensures OnCurve(c, Sum(c, p, q)) && Sum(c, p, q) == Sum(c, q, p)
  {
  }

  lemma GroupAssoc(c: Curve, p: Point, q: Point, r: Point)
    requires CurveGroup(c) && c.m > 1 && OnCurve(c, p) && OnCurve(c, q) && OnCurve(c, r)
    ensures Sum(c, Sum(c, p, q), r) == Sum(c, p, Sum(c, q, r))
  {
  }

  lemma {:induction false} TimesOn(c: Curve, k: nat, p: Point)
    requires CurveGroup(c) && c.m > 1 && OnCurve(c, p)
    ensures OnCurve(c, Times(c, k, p))
    decreases k
  {
    hide OnCurve, Sum, CurveGroup;
    if k > 0 {
      TimesOn(c, k - 1, p);
      GroupClosed(c, Times(c, k - 1, p), p);
    } else {
      GroupValid(c);
    }
  }

  lemma {:induction false} TimesSum(c: Curve, j: nat, k: nat, p: Point)
    requires CurveGroup(c) && c.m > 1 && OnCurve(c, p)
    ensures Times(c, j + k, p) == Sum(c, Times(c, j, p), Times(c, k, p))
    decreases k
  {
    hide OnCurve, Sum, CurveGroup, Times;
    TimesZero(c, p);
    if k == 0 {
      SumInfinity(c, Times(c, j, p));
    } else {
      TimesSum(c, j, k - 1, p);
      TimesOn(c, j, p);
      TimesOn(c, k - 1, p);
      TimesStep(c, k, p);
      TimesStep(c, j + k, p);
      GroupAssoc(c, Times(c, j, p), Times(c, k - 1, p), p);
    }
  }

  lemma TimesZero(c: Curve, p: Point)
    requires c.m > 1
    ensures Times(c, 0, p) == Infinity
  {
  }

  lemma TimesStep(c: Curve, k: nat, p: Point)
    requires c.m > 1 && k > 0
    ensures Times(c, k, p) == Sum(c, Times(c, k - 1, p), p)
  {
  }

  lemma SumInfinity(c: Curve, p: Point)
    requires c.m > 1
    ensures Sum(c, p, Infinity) == p && Sum(c, Infinity, p) == p
  {
  }

  /** `k G + l P`. */
  ghost function Combination(c: Curve, g: Point, p: Point, k: nat, l: nat): Point
    requires c.m > 1
  {
    Sum(c, Times(c, k, g), Times(c, l, p))
  }

  /** Four terms regroup. */
  lemma SumsRegroup(c: Curve, a: Point, b: Point, d: Point, e: Point)
    requires CurveGroup(c) && c.m > 1 && OnCurve(c, a) && OnCurve(c, b) && OnCurve(c, d) && OnCurve(c, e)
    ensures Sum(c, Sum(c, a, b), Sum(c, d, e)) == Sum(c, Sum(c, a, d), Sum(c, b, e))
  {
    hide OnCurve, Sum, CurveGroup;
    GroupClosed(c, d, e);
    GroupClosed(c, b, d);
    GroupClosed(c, b, e);
    GroupAssoc(c, a, b, Sum(c, d, e));
    GroupAssoc(c, b, d, e);
    GroupAssoc(c, d, b, e);
    GroupAssoc(c, a, d, Sum(c, b, e));
  }

  /** Combinations add coefficient by coefficient. */
  lemma CombinationSum(c: Curve, g: Point, p: Point, j: nat, k: nat, l: nat, n: nat)
    requires CurveGroup(c) && c.m > 1 && OnCurve(c, g) && OnCurve(c, p)
    ensures Sum(c, Combination(c, g, p, j, l), Combination(c, g, p, k, n)) == Combination(c, g, p, j + k, l + n)
    ensures OnCurve(c, Combination(c, g, p, j, l))
  {
    hide OnCurve, Sum, Times, CurveGroup;
    TimesSum(c, j, k, g);
    TimesSum(c, l, n, p);
    TimesOn(c, j, g);
    TimesOn(c, k, g);
    TimesOn(c, l, p);
    TimesOn(c, n, p);
    SumsRegroup(c, Times(c, j, g), Times(c, l, p), Times(c, k, g), Times(c, n, p));
    GroupClosed(c, Times(c, j, g), Times(c, l, p));
  }

  lemma SmallCombinations(c: Curve, g: Point, p: Point)
    requires c.m > 1
    ensures Combination(c, g, p, 0, 0) == Infinity && Combination(c, g, p, 1, 0) == g
    ensures Combination(c, g, p, 0, 1) == p && Combination(c, g, p, 1, 1) == Sum(c, g, p)
  {
    assert Times(c, 1, g) == Sum(c, Times(c, 0, g), g);
    assert Times(c, 1, p) == Sum(c, Times(c, 0, p), p);
  }

  // ── The table ────────────────────────────────────────────────────────────

  datatype AffineLimbs = AffineLimbs(x: seq<Felt>, y: seq<Felt>)

  function PointOf(q: AffineLimbs): Point {
    Affine(Val(q.x), Val(q.y))
  }

  predicate FieldAffine(id: CurveId, q: AffineLimbs) {
    FieldElement(id, q.x) && FieldElement(id, q.y)
  }

  /** The curve, the two points and their sum; if that is infinity, the flag is set
      and the entry is (0, 0). */
  ghost predicate Table(id: CurveId, c: Curve, g: AffineLimbs, p: AffineLimbs, gPlusP: AffineLimbs, infinite: Felt) {
    && CurveGroup(c) && c.m == Modulus(id) && c.a == CoefficientA(id) && infinite <= 1
    && FieldAffine(id, g) && FieldAffine(id, p) && FieldAffine(id, gPlusP)
    && OnCurve(c, PointOf(g)) && OnCurve(c, PointOf(p))
    && Sum(c, PointOf(g), PointOf(p)) == Operand(Val(gPlusP.x), Val(gPlusP.y), infinite == 1)
    && (infinite == 1 ==> Val(gPlusP.x) == 0 && Val(gPlusP.y) == 0)
  }

  /** The coefficients at which infinity is missed: both odd, so that `G + P` was
      added last. */
  ghost predicate Missed(c: Curve, g: Point, p: Point, infinite: Felt, k1: nat, k2: nat)
    requires c.m > 1
  {
    infinite == 1 && k1 % 2 == 1 && k2 % 2 == 1 && Combination(c, g, p, k1, k2) == Infinity
  }

  /** The accumulator stands for the combination; where infinity is missed it is
      the table entry (0, 0). */
  ghost predicate Tracks(c: Curve, g: Point, p: Point, infinite: Felt, acc: Jacobian, k1: nat, k2: nat)
    requires c.m > 1
  {
    if Missed(c, g, p, infinite, k1, k2) then acc == Jacobian(0, 0, 1) else Stands(c.m, acc, Combination(c, g, p, k1, k2))
  }

  /** What the loops need to run at all. */
  predicate Entries(id: CurveId, g: AffineLimbs, p: AffineLimbs, gPlusP: AffineLimbs, infinite: Felt) {
    FieldAffine(id, g) && FieldAffine(id, p) && FieldAffine(id, gPlusP) && infinite <= 1
  }

  /** The table is right and the accumulator tracks the coefficients. */
  ghost predicate Kept(id: CurveId, c: Curve, g: AffineLimbs, p: AffineLimbs, gPlusP: AffineLimbs, infinite: Felt, acc: JacobianLimbs,
                       k1: nat, k2: nat) {
    Table(id, c, g, p, gPlusP, infinite) && Tracks(c, PointOf(g), PointOf(p), infinite, Value(acc), k1, k2)
  }

  method SelectAffine2x2(b1: Felt, b2: Felt, t00: AffineLimbs, t10: AffineLimbs, t01: AffineLimbs, t11: AffineLimbs, ghost id: CurveId)
    returns (t: AffineLimbs)
    requires b1 <= 1 && b2 <= 1
    requires FieldAffine(id, t00) && FieldAffine(id, t10) && FieldAffine(id, t01) && FieldAffine(id, t11)
    ensures t == if b2 == 1 then (if b1 == 1 then t11 else t01) else (if b1 == 1 then t10 else t00)
  {
    var row0x := SelectLimbs(b1, t10.x, t00.x);
    var row0y := SelectLimbs(b1, t10.y, t00.y);
    var row1x := SelectLimbs(b1, t11.x, t01.x);
    var row1y := SelectLimbs(b1, t11.y, t01.y);
    var x := SelectLimbs(b2, row1x, row0x);
    var y := SelectLimbs(b2, row1y, row0y);
    return AffineLimbs(x, y);
  }

  function ExtractMaskedBit(limb: Felt, mask: Felt): (bit: Felt)
    requires mask > 0
    ensures bit == (limb / mask) % 2 && bit <= 1
  {
    UMod(UintDiv(limb, mask), 2)
  }

  // ── One step ─────────────────────────────────────────────────────────────

  /** Doubling mends a missed infinity. */
  lemma DoubleTracks(c: Curve, g: Point, p: Point, infinite: Felt, acc: Jacobian, k1: nat, k2: nat)
    requires CurveGroup(c) && c.m > 1 && OnCurve(c, g) && OnCurve(c, p)
    requires Tracks(c, g, p, infinite, acc, k1, k2)
    ensures Stands(c.m, Double(c.m, c.a, acc), Combination(c, g, p, 2 * k1, 2 * k2))
  {
    hide Stands, CurveGroup, OnCurve, Double, Combination, Sum;
    GroupValid(c);
    CombinationSum(c, g, p, k1, k1, k2, k2);
    if Missed(c, g, p, infinite, k1, k2) {
      FlatDouble(c, acc);
      SumInfinity(c, Infinity);
    } else {
      DoubleCorrect(c, acc, Combination(c, g, p, k1, k2));
    }
  }

  lemma AddEntry(id: CurveId, c: Curve, g: AffineLimbs, p: AffineLimbs, gPlusP: AffineLimbs, infinite: Felt, acc: Jacobian, t: AffineLimbs,
                 k1: nat, k2: nat, b1: nat, b2: nat)
    requires Table(id, c, g, p, gPlusP, infinite) && b1 <= 1 && b2 <= 1 && (b1 == 1 || b2 == 1)
    requires t == if b2 == 1 then (if b1 == 1 then gPlusP else p) else g
    requires Stands(c.m, acc, Combination(c, PointOf(g), PointOf(p), k1, k2))
    ensures Stands(c.m, AddMixedComplete(c.m, c.a, acc, Val(t.x), Val(t.y), b1 == 1 && b2 == 1 && infinite == 1),
                   Combination(c, PointOf(g), PointOf(p), k1 + b1, k2 + b2))
  {
    TableOn(id, c, g, p, gPlusP, infinite);
    hide Stands, OnCurve, Sum, Combination, Double, AddMixedComplete, ValidCurve, CurveGroup, Table;
    var gg, pp := PointOf(g), PointOf(p);
    var none := b1 == 1 && b2 == 1 && infinite == 1;
    CombinationSum(c, gg, pp, k1, b1, k2, b2);
    SmallCombinations(c, gg, pp);
    assert Combination(c, gg, pp, b1, b2) == Operand(Val(t.x), Val(t.y), none);
    AddMixedCorrect(c, acc, Combination(c, gg, pp, k1, k2), Val(t.x), Val(t.y), none);
  }

  lemma TableOn(id: CurveId, c: Curve, g: AffineLimbs, p: AffineLimbs, gPlusP: AffineLimbs, infinite: Felt)
    requires Table(id, c, g, p, gPlusP, infinite)
    ensures CurveGroup(c) && ValidCurve(c) && c.m > 3 && c.m == Modulus(id) && c.a == CoefficientA(id)
    ensures infinite == 1 ==> Val(gPlusP.x) == 0 && Val(gPlusP.y) == 0
    ensures Sum(c, PointOf(g), PointOf(p)) == Operand(Val(gPlusP.x), Val(gPlusP.y), infinite == 1)
    ensures OnCurve(c, PointOf(g)) && OnCurve(c, PointOf(p)) && OnCurve(c, Operand(Val(gPlusP.x), Val(gPlusP.y), infinite == 1))
    ensures forall q :: q == g || q == p || q == gPlusP ==> Val(q.x) < c.m && Val(q.y) < c.m
  {
  }

  /** The mask of the bit that `i` bits remain to reach. */
  function MaskOf(i: nat): int {
    if i == 0 then 0 else Two(i - 1)
  }

  lemma MaskHalves(i: nat)
    requires i > 0
    ensures MaskOf(i) > 0 && MaskOf(i) / 2 == MaskOf(i - 1)
  {
    if i == 1 {
      assert Two(0) == 1;
    } else {
      assert Two(i - 1) == 2 * Two(i - 2);
    }
  }

  /** The coefficient with all but `i` bits of the limb taken in. */
  function Taken(k: nat, u: nat, i: nat): nat
    requires i <= 64
  {
    Two(64 - i) * k + Shr(u, i)
  }

  lemma TakenStep(k: nat, u: nat, i: nat)
    requires 0 < i <= 64
    ensures MaskOf(i) > 0 && Taken(k, u, i - 1) == 2 * Taken(k, u, i) + (u / MaskOf(i)) % 2
  {
    NextBit(u, i - 1);
    assert Two(64 - (i - 1)) == 2 * Two(64 - i);
    assert 2 * Two(64 - i) * k == 2 * (Two(64 - i) * k);
  }

  lemma TakenEnds(k: nat, u: nat)
    requires u < TWO_64
    ensures Taken(k, u, 64) == k && Taken(k, u, 0) == TWO_64 * k + u
  {
    LimbPowers();
    assert Two(0) == 1;
  }

  // ── The loops ────────────────────────────────────────────────────────────

  /** One pass of the loop body: double, select, add unless both bits are 0. */
  method LoopBody(id: CurveId, acc: JacobianLimbs, g: AffineLimbs, p: AffineLimbs, gPlusP: AffineLimbs, gPlusPIsInfinity: Felt,
                  b1: Felt, b2: Felt, ghost c: Curve, ghost k1: nat, ghost k2: nat)
    returns (next: JacobianLimbs)
    requires Entries(id, g, p, gPlusP, gPlusPIsInfinity) && FieldPoint(id, acc) && b1 <= 1 && b2 <= 1
    ensures FieldPoint(id, next)
    ensures Kept(id, c, g, p, gPlusP, gPlusPIsInfinity, acc, k1, k2) ==>
              Kept(id, c, g, p, gPlusP, gPlusPIsInfinity, next, 2 * k1 + b1, 2 * k2 + b2)
  {
    hide Table, Tracks, Val, Mul, FieldElement, Modulus, CoefficientA;
    ConstantLimbs(id);
    var accDoubled := PointDouble(id, acc);
    var t := SelectAffine2x2(b1, b2, g, g, p, gPlusP, id);
    BitProduct(b1, b2);
    var bothBits := Mul(b1, b2);
    BitProduct(bothBits, gPlusPIsInfinity);
    var selectedIsInfinity := Mul(bothBits, gPlusPIsInfinity);
    var addResult := PointAddMixedComplete(id, accDoubled, t.x, t.y, selectedIsInfinity);
    var accZEqZero := IsZero(id, accDoubled.z);
    var tAsJacobian := JacobianLimbs(t.x, t.y, ONE_LIMBS);
    var postAdd := SelectJacobian(accZEqZero, tAsJacobian, addResult, id);
    BitProduct(NotBitOf(b1), NotBitOf(b2));
    var skipAdd := Mul(NotBitOf(b1), NotBitOf(b2));
    next := SelectJacobian(skipAdd, accDoubled, postAdd, id);
    if Kept(id, c, g, p, gPlusP, gPlusPIsInfinity, acc, k1, k2) {
      BodyCorrect(id, c, g, p, gPlusP, gPlusPIsInfinity, acc, accDoubled, t, addResult, postAdd, k1, k2, b1, b2);
    }
  }

  lemma BodyCorrect(id: CurveId, c: Curve, g: AffineLimbs, p: AffineLimbs, gPlusP: AffineLimbs, infinite: Felt, acc: JacobianLimbs,
                    accDoubled: JacobianLimbs, t: AffineLimbs, addResult: JacobianLimbs, postAdd: JacobianLimbs, k1: nat, k2: nat,
                    b1: nat, b2: nat)
    requires Table(id, c, g, p, gPlusP, infinite) && b1 <= 1 && b2 <= 1
    requires Tracks(c, PointOf(g), PointOf(p), infinite, Value(acc), k1, k2)
    requires t == if b2 == 1 then (if b1 == 1 then gPlusP else p) else g
    requires Value(accDoubled) == Double(Modulus(id), CoefficientA(id), Value(acc))
    requires Value(addResult) == AddMixedComplete(Modulus(id), CoefficientA(id), Value(accDoubled), Val(t.x), Val(t.y),
                                                  b1 == 1 && b2 == 1 && infinite == 1)
    requires postAdd == if Val(accDoubled.z) == 0 then JacobianLimbs(t.x, t.y, ONE_LIMBS) else addResult
    ensures var next := if b1 == 0 && b2 == 0 then accDoubled else postAdd;
            Tracks(c, PointOf(g), PointOf(p), infinite, Value(next), 2 * k1 + b1, 2 * k2 + b2)
  {
    hide Stands, Tracks, Table, CurveGroup, Combination, OnCurve, Double, AddMixedComplete, Val, Value, PointOf, Modulus, CoefficientA, Sum;
    TableOn(id, c, g, p, gPlusP, infinite);
    var gg, pp := PointOf(g), PointOf(p);
    DoubleTracks(c, gg, pp, infinite, Value(acc), k1, k2);
    if b1 == 0 && b2 == 0 {
      StandsTracks(c, gg, pp, infinite, Value(accDoubled), 2 * k1, 2 * k2);
    } else {
      AddEntry(id, c, g, p, gPlusP, infinite, Value(accDoubled), t, 2 * k1, 2 * k2, b1, b2);
      EntryAsJacobian(t);
      ZOf(accDoubled);
      AddToInfinity(c.m, c.a, Value(accDoubled), Val(t.x), Val(t.y));
      if b1 == 1 && b2 == 1 && infinite == 1 {
        AddsNothing(id, c, g, p, gPlusP, 2 * k1, 2 * k2);
        BothTracks(c, gg, pp, Value(accDoubled), Value(postAdd), 2 * k1, 2 * k2);
      } else {
        StandsTracks(c, gg, pp, infinite, Value(postAdd), 2 * k1 + b1, 2 * k2 + b2);
      }
    }
  }

  lemma ZOf(p: JacobianLimbs)
    ensures Value(p).z == Val(p.z)
  {
  }

  lemma EntryAsJacobian(t: AffineLimbs)
    ensures Value(JacobianLimbs(t.x, t.y, ONE_LIMBS)) == Jacobian(Val(t.x), Val(t.y), 1)
  {
    ValOf4(1, 0, 0, 0);
  }

  lemma AddToInfinity(m: nat, a: int, p: Jacobian, x: nat, y: nat)
    requires m > 0
    ensures p.z == 0 ==> AddMixedComplete(m, a, p, x, y, false) == Jacobian(x, y, 1)
  {
  }

  lemma StandsTracks(c: Curve, g: Point, p: Point, infinite: Felt, acc: Jacobian, k1: nat, k2: nat)
    requires c.m > 1 && Stands(c.m, acc, Combination(c, g, p, k1, k2))
    requires infinite != 1 || k1 % 2 == 0 || k2 % 2 == 0
    ensures Tracks(c, g, p, infinite, acc, k1, k2)
  {
  }

  /** Both bits are set and `G + P` is infinity: the entry replaces an accumulator
      that is infinity, and is not added to any other. */
  lemma BothTracks(c: Curve, g: Point, p: Point, doubled: Jacobian, next: Jacobian, k1: nat, k2: nat)
    requires c.m > 1 && k1 % 2 == 0 && k2 % 2 == 0
    requires Combination(c, g, p, k1 + 1, k2 + 1) == Combination(c, g, p, k1, k2)
    requires Stands(c.m, doubled, Combination(c, g, p, k1, k2))
    requires if doubled.z == 0 then next == Jacobian(0, 0, 1) else Stands(c.m, next, Combination(c, g, p, k1 + 1, k2 + 1))
    ensures Tracks(c, g, p, 1, next, k1 + 1, k2 + 1)
  {
    hide Combination;
  }

  lemma StandsZ(m: nat, j: Jacobian, p: Point)
    requires m > 0
    ensures Stands(m, j, p) ==> (j.z == 0 <==> p == Infinity)
  {
  }

  /** If `G + P` is infinity, adding both leaves the combination as it is. */
  lemma AddsNothing(id: CurveId, c: Curve, g: AffineLimbs, p: AffineLimbs, gPlusP: AffineLimbs, k1: nat, k2: nat)
    requires Table(id, c, g, p, gPlusP, 1)
    ensures c.m > 1 && Combination(c, PointOf(g), PointOf(p), k1 + 1, k2 + 1) == Combination(c, PointOf(g), PointOf(p), k1, k2)
  {
    hide OnCurve, Combination, CurveGroup, Val, Times;
    TableOn(id, c, g, p, gPlusP, 1);
    var gg, pp := PointOf(g), PointOf(p);
    CombinationSum(c, gg, pp, k1, 1, k2, 1);
    SmallCombinations(c, gg, pp);
    SumInfinity(c, Combination(c, gg, pp, k1, k2));
  }

  /** 64 passes take in one limb of each scalar. */
  method LimbLoop(id: CurveId, acc: JacobianLimbs, g: AffineLimbs, p: AffineLimbs, gPlusP: AffineLimbs, gPlusPIsInfinity: Felt,
                  u1Limb: Felt, u2Limb: Felt, ghost c: Curve, ghost k1: nat, ghost k2: nat)
    returns (next: JacobianLimbs)
    requires Entries(id, g, p, gPlusP, gPlusPIsInfinity) && FieldPoint(id, acc) && u1Limb < TWO_64 && u2Limb < TWO_64
    ensures FieldPoint(id, next)
    ensures Kept(id, c, g, p, gPlusP, gPlusPIsInfinity, acc, k1, k2) ==>
              Kept(id, c, g, p, gPlusP, gPlusPIsInfinity, next, TWO_64 * k1 + u1Limb, TWO_64 * k2 + u2Limb)
  {
    hide Kept, Entries, Val, FieldPoint, Modulus, Pow, Taken, MaskOf;
    var mask: Felt := 0x8000_0000_0000_0000;
    ghost var i := 64;
    MaskStart();
    TakenEnds(k1, u1Limb);
    TakenEnds(k2, u2Limb);
    ghost var starts := Kept(id, c, g, p, gPlusP, gPlusPIsInfinity, acc, k1, k2);
    next := acc;
    while mask > 0
      invariant 0 <= i <= 64 && mask == MaskOf(i) && FieldPoint(id, next)
      invariant starts ==> Kept(id, c, g, p, gPlusP, gPlusPIsInfinity, next, Taken(k1, u1Limb, i), Taken(k2, u2Limb, i))
      decreases i
    {
      MaskNonZero(i);
      TakenStep(k1, u1Limb, i);
      TakenStep(k2, u2Limb, i);
      MaskHalves(i);
      var b1 := ExtractMaskedBit(u1Limb, mask);
      var b2 := ExtractMaskedBit(u2Limb, mask);
      next := LoopBody(id, next, g, p, gPlusP, gPlusPIsInfinity, b1, b2, c, Taken(k1, u1Limb, i), Taken(k2, u2Limb, i));
      mask := UintDiv(mask, 2);
      i := i - 1;
    }
    MaskNonZero(i);
  }

  lemma MaskStart()
    ensures MaskOf(64) == 0x8000_0000_0000_0000
  {
    LimbPowers();
  }

  lemma MaskNonZero(i: nat)
    ensures MaskOf(i) > 0 <==> i > 0
  {
    if i > 0 {
    }
  }

  lemma DropLimb(u: seq<nat>, i: nat)
    requires i < |u|
    ensures Val(u[i..]) == TWO_64 * Val(u[i + 1..]) + u[i]
  {
    assert u[i..][1..] == u[i + 1..];
  }

  lemma StartsAtInfinity(id: CurveId, c: Curve, g: Point, p: Point)
    requires CurveGroup(c)
    ensures FieldPoint(id, INFINITY_LIMBS) && Stands(c.m, Value(INFINITY_LIMBS), Combination(c, g, p, 0, 0))
  {
    ConstantLimbs(id);
    SmallCombinations(c, g, p);
  }

  // ── The whole multiplication ─────────────────────────────────────────────

  /** The result says what `sum` is. */
  predicate Reports(sum: Point, x: nat, y: nat, isInfinity: Felt) {
    (isInfinity == 1 <==> sum == Infinity) && (isInfinity == 0 ==> sum == Affine(x, y))
  }

  /** The result is right exactly unless infinity is missed, and then it is (0, 0). */
  ghost predicate Answers(c: Curve, g: Point, p: Point, infinite: Felt, u1: nat, u2: nat, x: nat, y: nat, isInfinity: Felt)
    requires c.m > 1
  {
    && (Reports(Combination(c, g, p, u1, u2), x, y, isInfinity) <==> !Missed(c, g, p, infinite, u1, u2))
    && (Missed(c, g, p, infinite, u1, u2) ==> isInfinity == 0 && x == 0 && y == 0)
  }

  /** `u1 G + u2 P`: its affine coordinates, or the flag if it is the identity,
      exactly unless that identity is missed; it is then reported as (0, 0). */
  method JointScalarMul(id: CurveId, g: AffineLimbs, p: AffineLimbs, gPlusP: AffineLimbs, gPlusPIsInfinity: Felt,
                        u1: seq<Felt>, u2: seq<Felt>, ghost c: Curve)
    returns (x: seq<Felt>, y: seq<Felt>, isInfinity: Felt)
    requires Entries(id, g, p, gPlusP, gPlusPIsInfinity) && IsLimbs(u1, LIMBS) && IsLimbs(u2, LIMBS)
    ensures FieldElement(id, x) && FieldElement(id, y) && isInfinity <= 1
    ensures Table(id, c, g, p, gPlusP, gPlusPIsInfinity) ==>
              c.m > 1 && Answers(c, PointOf(g), PointOf(p), gPlusPIsInfinity, Val(u1), Val(u2), Val(x), Val(y), isInfinity)
  {
    hide Kept, Table, Entries, Val, FieldPoint, FieldElement, Modulus, Answers;
    ConstantLimbs(id);
    InfinityLimbs(id);
    var acc := INFINITY_LIMBS;
    NoLimbs(u1);
    NoLimbs(u2);
    ghost var right := Table(id, c, g, p, gPlusP, gPlusPIsInfinity);
    if right {
      StartsAtTable(id, c, g, p, gPlusP, gPlusPIsInfinity);
    }
    for limbIdx := LIMBS downto 0
      invariant FieldPoint(id, acc)
      invariant right ==> Kept(id, c, g, p, gPlusP, gPlusPIsInfinity, acc, Val(u1[limbIdx..]), Val(u2[limbIdx..]))
    {
      DropLimb(u1, limbIdx);
      DropLimb(u2, limbIdx);
      acc := LimbLoop(id, acc, g, p, gPlusP, gPlusPIsInfinity, u1[limbIdx], u2[limbIdx], c, Val(u1[limbIdx + 1..]), Val(u2[limbIdx + 1..]));
    }
    assert u1[0..] == u1 && u2[0..] == u2;
    var safe: JacobianLimbs;
    safe, isInfinity := Invertible(id, acc);
    x, y := JacobianToAffine(id, safe);
    if right {
      Converted(id, c, g, p, gPlusP, gPlusPIsInfinity, acc, safe, Val(u1), Val(u2), Val(x), Val(y), isInfinity);
    }
  }

  /** The scalars one and one: `G + P` is infinity, and JointScalarMul reports the
      point (0, 0). */
  lemma OneAndOne(id: CurveId, c: Curve, g: AffineLimbs, p: AffineLimbs, gPlusP: AffineLimbs)
    requires Table(id, c, g, p, gPlusP, 1)
    ensures c.m > 1 && Val(ONE_LIMBS) == 1 && Missed(c, PointOf(g), PointOf(p), 1, Val(ONE_LIMBS), Val(ONE_LIMBS))
  {
    hide Combination, OnCurve, CurveGroup, PointOf;
    TableOn(id, c, g, p, gPlusP, 1);
    ValOf4(1, 0, 0, 0);
    SmallCombinations(c, PointOf(g), PointOf(p));
  }

  /** `n` is the order of `G`. */
  ghost predicate HasOrder(c: Curve, g: Point, n: nat)
    requires c.m > 1
  {
    Times(c, n, g) == Infinity && forall k: nat :: 0 < k < n ==> Times(c, k, g) != Infinity
  }

  /** When `G + P` is infinity, only the difference of the coefficients counts. */
  lemma {:induction false} Cancels(id: CurveId, c: Curve, g: AffineLimbs, p: AffineLimbs, gPlusP: AffineLimbs, k: nat, l: nat, j: nat)
    requires Table(id, c, g, p, gPlusP, 1)
    ensures c.m > 1 && Combination(c, PointOf(g), PointOf(p), k + j, l + j) == Combination(c, PointOf(g), PointOf(p), k, l)
    decreases j
  {
    hide Combination, Table;
    if j > 0 {
      Cancels(id, c, g, p, gPlusP, k, l, j - 1);
      AddsNothing(id, c, g, p, gPlusP, k + j - 1, l + j - 1);
    } else {
      TableOn(id, c, g, p, gPlusP, 1);
    }
  }

  /** Multiples of opposite points are infinity together. */
  lemma OppositeMultiples(id: CurveId, c: Curve, g: AffineLimbs, p: AffineLimbs, gPlusP: AffineLimbs, k: nat)
    requires Table(id, c, g, p, gPlusP, 1)
    ensures c.m > 1 && (Times(c, k, PointOf(g)) == Infinity <==> Times(c, k, PointOf(p)) == Infinity)
  {
    hide Times, Table, CurveGroup, OnCurve, Sum, PointOf;
    TableOn(id, c, g, p, gPlusP, 1);
    Cancels(id, c, g, p, gPlusP, 0, 0, k);
    SmallCombinations(c, PointOf(g), PointOf(p));
    SumInfinity(c, Times(c, k, PointOf(g)));
    SumInfinity(c, Times(c, k, PointOf(p)));
  }

  /** For scalars below the order of `G`, infinity is missed exactly when `G + P`
      is infinity and the scalars are equal and odd. */
  lemma MissedWhenEqual(id: CurveId, c: Curve, g: AffineLimbs, p: AffineLimbs, gPlusP: AffineLimbs, infinite: Felt, n: nat, u1: nat, u2: nat)
    requires Table(id, c, g, p, gPlusP, infinite) && c.m > 1 && HasOrder(c, PointOf(g), n) && u1 < n && u2 < n
    ensures Missed(c, PointOf(g), PointOf(p), infinite, u1, u2) <==> infinite == 1 && u1 == u2 && u1 % 2 == 1
  {
    hide Table, Times, Sum, PointOf;
    if infinite == 1 {
      var gg, pp := PointOf(g), PointOf(p);
      SmallCombinations(c, gg, pp);
      if u1 >= u2 {
        Cancels(id, c, g, p, gPlusP, u1 - u2, 0, u2);
        TimesZero(c, pp);
        SumInfinity(c, Times(c, u1 - u2, gg));
        TimesZero(c, gg);
      } else {
        Cancels(id, c, g, p, gPlusP, 0, u2 - u1, u1);
        TimesZero(c, gg);
        SumInfinity(c, Times(c, u2 - u1, pp));
        OppositeMultiples(id, c, g, p, gPlusP, u2 - u1);
      }
    }
  }

  lemma InfinityLimbs(id: CurveId)
    ensures FieldPoint(id, INFINITY_LIMBS)
  {
    hide Val;
    ConstantLimbs(id);
  }

  /** What the conversion says about the accumulator. */
  lemma Converted(id: CurveId, c: Curve, g: AffineLimbs, p: AffineLimbs, gPlusP: AffineLimbs, infinite: Felt, acc: JacobianLimbs,
                  safe: JacobianLimbs, u1: nat, u2: nat, x: nat, y: nat, isInfinity: Felt)
    requires Kept(id, c, g, p, gPlusP, infinite, acc, u1, u2) && Modulus(id) > 1
    requires isInfinity == (if Val(acc.z) == 0 then 1 else 0) && (isInfinity == 0 ==> safe == acc)
    requires (x, y) == ToAffine(Modulus(id), Value(safe))
    ensures c.m > 1 && Answers(c, PointOf(g), PointOf(p), infinite, u1, u2, x, y, isInfinity)
  {
    hide Prime, ToAffine, Stands, Combination, Val, FieldElement, OnCurve, Sum, Modulus;
    TableOn(id, c, g, p, gPlusP, infinite);
    if Missed(c, PointOf(g), PointOf(p), infinite, u1, u2) {
      OriginToAffine(c.m, Value(acc));
    } else {
      Normalised(c.m, Value(acc), Combination(c, PointOf(g), PointOf(p), u1, u2));
    }
  }

  lemma OriginToAffine(m: nat, p: Jacobian)
    requires m > 1 && p.x == 0 && p.y == 0
    ensures ToAffine(m, p) == (0, 0)
  {
    hide InverseMod;
  }

  lemma StartsAtTable(id: CurveId, c: Curve, g: AffineLimbs, p: AffineLimbs, gPlusP: AffineLimbs, infinite: Felt)
    requires Table(id, c, g, p, gPlusP, infinite)
    ensures Kept(id, c, g, p, gPlusP, infinite, INFINITY_LIMBS, 0, 0)
  {
    StartsAtInfinity(id, c, PointOf(g), PointOf(p));
  }

  lemma NoLimbs(u: seq<nat>)
    ensures Val(u[|u|..]) == 0
  {
  }

  /** The guard of the conversion: a zero `Z` is replaced by one. */
  method Invertible(id: CurveId, acc: JacobianLimbs) returns (safe: JacobianLimbs, isInfinity: Felt)
    requires FieldPoint(id, acc)
    ensures FieldPoint(id, safe)
    ensures isInfinity == if Val(acc.z) == 0 then 1 else 0
    ensures safe == if isInfinity == 1 then JacobianLimbs(acc.x, acc.y, ONE_LIMBS) else acc
  {
    hide Val, Modulus;
    ConstantLimbs(id);
    isInfinity := IsZero(id, acc.z);
    var safeZ := SelectLimbs(isInfinity, ONE_LIMBS, acc.z);
    safe := JacobianLimbs(acc.x, acc.y, safeZ);
  }

  lemma Normalised(m: nat, j: Jacobian, sum: Point)
    requires Prime(m) && Stands(m, j, sum)
    ensures j.z == 0 <==> sum == Infinity
    ensures j.z != 0 ==> sum == Affine(ToAffine(m, j).0, ToAffine(m, j).1)
  {
    hide Cong, ToAffine, Prime;
    if sum.Affine? {
      ToAffineCorrect(m, j, sum);
    }
  }
}
