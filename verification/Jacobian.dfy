/** Jacobian point formulas over a prime field (`point.rs`) and the chord and
    tangent law they implement. */
module Jacobians {
  import opened ModArith

  // ── Field operations ─────────────────────────────────────────────────────

  function MulP(m: nat, a: nat, b: nat): nat
    requires m > 0
  {
    (a * b) % m
  }

  function AddP(m: nat, a: nat, b: nat): nat
    requires m > 0
  {
    (a + b) % m
  }

  function SubP(m: nat, a: nat, b: nat): nat
    requires m > 0
  {
    (a - b) % m
  }

  function DblP(m: nat, a: nat): nat
    requires m > 0
  {
    AddP(m, a, a)
  }

  // What an operation computes, up to congruence.

  lemma MulCong(m: nat, a: nat, x: int, b: nat, y: int)
    requires m > 0 && Cong(a, x, m) && Cong(b, y, m)
    ensures Cong(MulP(m, a, b), x * y, m)
  {
    CongMul(a, x, b, y, m);
    CongMod(a * b, m);
    CongTrans(MulP(m, a, b), a * b, x * y, m);
  }

  lemma AddCong(m: nat, a: nat, x: int, b: nat, y: int)
    requires m > 0 && Cong(a, x, m) && Cong(b, y, m)
    ensures Cong(AddP(m, a, b), x + y, m)
  {
    CongAdd(a, x, b, y, m);
    CongMod(a + b, m);
    CongTrans(AddP(m, a, b), a + b, x + y, m);
  }

  lemma SubCong(m: nat, a: nat, x: int, b: nat, y: int)
    requires m > 0 && Cong(a, x, m) && Cong(b, y, m)
    ensures Cong(SubP(m, a, b), x - y, m)
  {
    CongAdd(a, x, b, y, m);
    CongMod(a - b, m);
    CongTrans(SubP(m, a, b), a - b, x - y, m);
  }

  lemma DblCong(m: nat, a: nat, x: int)
    requires m > 0 && Cong(a, x, m)
    ensures Cong(DblP(m, a), 2 * x, m)
  {
    AddCong(m, a, x, a, x);
  }

  // ── The formulas ─────────────────────────────────────────────────────────

  /** `(X, Y, Z)` stands for `(X / Z^2, Y / Z^3)`, and for the identity when `Z`
      is zero. */
  datatype Jacobian = Jacobian(x: nat, y: nat, z: nat)

  const INFINITY := Jacobian(0, 0, 0)

  function DoubleAZero(m: nat, p: Jacobian): Jacobian
    requires m > 0
  {
    var aVal := MulP(m, p.y, p.y);
    var b := DblP(m, DblP(m, MulP(m, p.x, aVal)));
    var c := DblP(m, DblP(m, DblP(m, MulP(m, aVal, aVal))));
    var xSq := MulP(m, p.x, p.x);
    var d := AddP(m, DblP(m, xSq), xSq);
    var x3 := SubP(m, MulP(m, d, d), DblP(m, b));
    var y3 := SubP(m, MulP(m, d, SubP(m, b, x3)), c);
    Jacobian(x3, y3, DblP(m, MulP(m, p.y, p.z)))
  }

  function DoubleANeg3(m: nat, p: Jacobian): Jacobian
    requires m > 0
  {
    var delta := MulP(m, p.z, p.z);
    var gamma := MulP(m, p.y, p.y);
    var beta := MulP(m, p.x, gamma);
    var diffProd := MulP(m, SubP(m, p.x, delta), AddP(m, p.x, delta));
    var alpha := AddP(m, DblP(m, diffProd), diffProd);
    var beta4 := DblP(m, DblP(m, beta));
    var x3 := SubP(m, MulP(m, alpha, alpha), DblP(m, beta4));
    var yPlusZ := AddP(m, p.y, p.z);
    var z3 := SubP(m, SubP(m, MulP(m, yPlusZ, yPlusZ), gamma), delta);
    var gammaSq8 := DblP(m, DblP(m, DblP(m, MulP(m, gamma, gamma))));
    var y3 := SubP(m, MulP(m, alpha, SubP(m, beta4, x3)), gammaSq8);
    Jacobian(x3, y3, z3)
  }

  /** The difference of the scaled abscissas, of the scaled ordinates, and the
      sum when both differ. */
  function MixedH(m: nat, p: Jacobian, x2: nat): nat
    requires m > 0
  {
    SubP(m, MulP(m, x2, MulP(m, p.z, p.z)), p.x)
  }

  function MixedS(m: nat, p: Jacobian, y2: nat): nat
    requires m > 0
  {
    SubP(m, MulP(m, MulP(m, y2, p.z), MulP(m, p.z, p.z)), p.y)
  }

  function AddMixedRegular(m: nat, p: Jacobian, x2: nat, y2: nat): Jacobian
    requires m > 0
  {
    var z1z1 := MulP(m, p.z, p.z);
    var h := MixedH(m, p, x2);
    var hh := MulP(m, h, h);
    var i := DblP(m, DblP(m, hh));
    var j := MulP(m, h, i);
    var r := DblP(m, MixedS(m, p, y2));
    var v := MulP(m, p.x, i);
    var x3 := SubP(m, SubP(m, MulP(m, r, r), j), DblP(m, v));
    var y3 := SubP(m, MulP(m, r, SubP(m, v, x3)), DblP(m, MulP(m, p.y, j)));
    var zh := AddP(m, p.z, h);
    Jacobian(x3, y3, SubP(m, SubP(m, MulP(m, zh, zh), z1z1), hh))
  }

  /** The coefficient `a` of `y^2 = x^3 + a x + b`, and the doubling it selects. */
  function Double(m: nat, a: int, p: Jacobian): Jacobian
    requires m > 0
  {
    if a == 0 then DoubleAZero(m, p) else DoubleANeg3(m, p)
  }

  /** The addition that covers the degenerate cases, as nested selections. */
  function AddMixedComplete(m: nat, a: int, p: Jacobian, x2: nat, y2: nat, qInfinity: bool): Jacobian
    requires m > 0
  {
    var sameX := MixedH(m, p, x2) == 0;
    var sameY := MixedS(m, p, y2) == 0;
    var afterInverse := if sameX && !sameY then INFINITY else AddMixedRegular(m, p, x2, y2);
    var afterDouble := if sameX && sameY then Double(m, a, p) else afterInverse;
    var afterQ := if qInfinity then p else afterDouble;
    if p.z == 0 then (if qInfinity then INFINITY else Jacobian(x2, y2, 1)) else afterQ
  }

  // ── Chord and tangent ────────────────────────────────────────────────────

  /** An affine point or the point at infinity. */
  datatype Point = Infinity | Affine(x: nat, y: nat)

  /** A short Weierstrass curve `y^2 = x^3 + a x + b` over the integers modulo
      `m`; `a` is 0 or -3. */
  datatype Curve = Curve(m: nat, a: int, b: int)

  ghost predicate ValidCurve(c: Curve) {
    c.m > 3 && Prime(c.m) && (c.a == 0 || c.a == -3)
  }

  ghost predicate OnCurve(c: Curve, p: Point)
    requires c.m > 0
  {
    p.Affine? ==> p.x < c.m && p.y < c.m && Cong(p.y * p.y, p.x * p.x * p.x + c.a * p.x + c.b, c.m)
  }

  /** The third point on the line with slope `l`, reflected. */
  function OnLine(m: nat, l: int, x1: int, y1: int, x2: int): Point
    requires m > 0
  {
    var x3 := (l * l - x1 - x2) % m;
    Affine(x3, (l * (x1 - x3) - y1) % m)
  }

  function Slope(c: Curve, p: Point, q: Point): nat
    requires c.m > 1 && p.Affine? && q.Affine?
  {
    if p.x != q.x then ((q.y - p.y) * InverseMod(c.m, q.x - p.x)) % c.m
    else ((3 * p.x * p.x + c.a) * InverseMod(c.m, 2 * p.y)) % c.m
  }

  /** The sum of section 2.2.1 of SEC 1. */
  function Sum(c: Curve, p: Point, q: Point): Point
    requires c.m > 1
  {
    if p.Infinity? then q
    else if q.Infinity? then p
    else if p.x == q.x && (p.y + q.y) % c.m == 0 then Infinity
    else OnLine(c.m, Slope(c, p, q), p.x, p.y, q.x)
  }

  // ── Representation ───────────────────────────────────────────────────────

  ghost predicate Stands(m: nat, j: Jacobian, p: Point)
    requires m > 0
  {
    && j.x < m && j.y < m && j.z < m
    && match p
       case Infinity => j.z == 0
       case Affine(x, y) =>
         j.z != 0 && x < m && y < m && Cong(j.x, x * (j.z * j.z), m) && Cong(j.y, y * (j.z * j.z * j.z), m)
  }

  // ── The common end of both computations ──────────────────────────────────

  /** With `X ≡ 4 k^2 (l^2 - s)` and `Y ≡ 8 k^3 (l (x - x3) - y)` the result
      stands for the point on the line. */
  lemma StandsOnLine(m: nat, j: Jacobian, l: int, x: int, y: int, x2: int, k: int)
    requires Prime(m) && j.x < m && j.y < m && j.z < m
    requires Cong(j.z, 2 * k, m) && !Cong(2 * k, 0, m)
    requires Cong(j.x, 4 * (k * k) * (l * l - x - x2), m)
    requires Cong(j.y, 8 * (k * k * k) * (l * (x - (l * l - x - x2)) - y), m)
    ensures Stands(m, j, OnLine(m, l, x, y, x2))
  {
    hide Prime, Cong;
    var s := l * l - x - x2;
    var p := OnLine(m, l, x, y, x2);
    CongMod(s, m);
    CongRefl(l, m);
    CongRefl(x, m);
    CongAdd(x, x, p.x, s, m);
    CongMul(l, l, x - p.x, x - s, m);
    CongRefl(y, m);
    CongAdd(l * (x - p.x), l * (x - s), y, y, m);
    CongMod(l * (x - p.x) - y, m);
    CongTrans(p.y, l * (x - p.x) - y, l * (x - s) - y, m);
    CongMul(j.z, 2 * k, j.z, 2 * k, m);
    CongMul(j.z * j.z, (2 * k) * (2 * k), j.z, 2 * k, m);
    CongMul(p.x, s, j.z * j.z, (2 * k) * (2 * k), m);
    CongMul(p.y, l * (x - s) - y, j.z * j.z * j.z, (2 * k) * (2 * k) * (2 * k), m);
    Scales(k, s, l * (x - s) - y);
    CongSym(p.x * (j.z * j.z), s * ((2 * k) * (2 * k)), m);
    CongTrans(j.x, 4 * (k * k) * s, p.x * (j.z * j.z), m);
    CongSym(p.y * (j.z * j.z * j.z), (l * (x - s) - y) * ((2 * k) * (2 * k) * (2 * k)), m);
    CongTrans(j.y, 8 * (k * k * k) * (l * (x - s) - y), p.y * (j.z * j.z * j.z), m);
    if j.z == 0 {
      CongSym(j.z, 2 * k, m);
    }
  }

  lemma Scales(k: int, s: int, t: int)
    ensures s * ((2 * k) * (2 * k)) == 4 * (k * k) * s
    ensures t * ((2 * k) * (2 * k) * (2 * k)) == 8 * (k * k * k) * t
  {
    assert (2 * k) * (2 * k) == 4 * (k * k);
    assert (4 * (k * k)) * (2 * k) == 8 * (k * k * k);
  }

  /** Both formulas end with `D^2 - W` and `D (V - X3) - C`. */
  lemma LineEnds(m: nat, d: int, v: int, w: int, c: int, l: int, k: int, x: int, y: int, x2: int)
    requires m > 0 && Cong(d, 2 * l * k, m) && Cong(v, 4 * x * (k * k), m)
    requires Cong(w, 4 * (k * k) * (x + x2), m) && Cong(c, 8 * (k * k * k) * y, m)
    ensures Cong(d * d - w, 4 * (k * k) * (l * l - x - x2), m)
    ensures Cong(d * (v - (d * d - w)) - c, 8 * (k * k * k) * (l * (x - (l * l - x - x2)) - y), m)
  {
    hide Cong;
    var s := l * l - x - x2;
    CongMul(d, 2 * l * k, d, 2 * l * k, m);
    CongAdd(d * d, (2 * l * k) * (2 * l * k), w, 4 * (k * k) * (x + x2), m);
    EndX(l, k, x + x2);
    CongAdd(v, 4 * x * (k * k), d * d - w, 4 * (k * k) * s, m);
    CongMul(d, 2 * l * k, v - (d * d - w), 4 * x * (k * k) - 4 * (k * k) * s, m);
    CongAdd(d * (v - (d * d - w)), (2 * l * k) * (4 * x * (k * k) - 4 * (k * k) * s), c, 8 * (k * k * k) * y, m);
    EndY(l, k, x, y, s);
  }

  lemma EndX(l: int, k: int, t: int)
    ensures (2 * l * k) * (2 * l * k) - 4 * (k * k) * t == 4 * (k * k) * (l * l - t)
  {
    assert (2 * l * k) * (2 * l * k) == 4 * (k * k) * (l * l);
  }

  lemma EndY(l: int, k: int, x: int, y: int, s: int)
    ensures (2 * l * k) * (4 * x * (k * k) - 4 * (k * k) * s) - 8 * (k * k * k) * y == 8 * (k * k * k) * (l * (x - s) - y)
  {
    var kk := k * k;
    assert 4 * x * kk - 4 * kk * s == 4 * kk * (x - s);
    assert (2 * l * k) * (4 * kk * (x - s)) == 8 * (kk * k) * (l * (x - s));
  }

  // ── Doubling ─────────────────────────────────────────────────────────────

  /** What both doublings compute: `D` is the numerator of the slope. */
  ghost predicate Doubles(m: nat, p: Jacobian, d: int, r: Jacobian)
    requires m > 0
  {
    && r.x < m && r.y < m && r.z < m
    && Cong(r.x, d * d - 2 * (4 * p.x * (p.y * p.y)), m)
    && Cong(r.y, d * (4 * p.x * (p.y * p.y) - (d * d - 2 * (4 * p.x * (p.y * p.y)))) - 8 * (p.y * p.y) * (p.y * p.y), m)
    && Cong(r.z, 2 * (p.y * p.z), m)
  }

  lemma AZeroDoubles(m: nat, p: Jacobian)
    requires m > 0
    ensures Doubles(m, p, 3 * (p.x * p.x), DoubleAZero(m, p))
  {
    hide Cong, MulP, AddP, SubP, DblP;
    var yy := p.y * p.y;
    CongRefl(p.x, m);
    CongRefl(p.y, m);
    CongRefl(p.z, m);
    MulCong(m, p.y, p.y, p.y, p.y);
    var aVal := MulP(m, p.y, p.y);
    MulCong(m, p.x, p.x, aVal, yy);
    DblCong(m, MulP(m, p.x, aVal), p.x * yy);
    DblCong(m, DblP(m, MulP(m, p.x, aVal)), 2 * (p.x * yy));
    var b := DblP(m, DblP(m, MulP(m, p.x, aVal)));
    assert 2 * (2 * (p.x * yy)) == 4 * p.x * yy;
    MulCong(m, aVal, yy, aVal, yy);
    DblCong(m, MulP(m, aVal, aVal), yy * yy);
    DblCong(m, DblP(m, MulP(m, aVal, aVal)), 2 * (yy * yy));
    DblCong(m, DblP(m, DblP(m, MulP(m, aVal, aVal))), 2 * (2 * (yy * yy)));
    var c := DblP(m, DblP(m, DblP(m, MulP(m, aVal, aVal))));
    assert 2 * (2 * (2 * (yy * yy))) == 8 * yy * yy;
    MulCong(m, p.x, p.x, p.x, p.x);
    var xSq := MulP(m, p.x, p.x);
    DblCong(m, xSq, p.x * p.x);
    AddCong(m, DblP(m, xSq), 2 * (p.x * p.x), xSq, p.x * p.x);
    DoubleTail(m, p, AddP(m, DblP(m, xSq), xSq), 3 * (p.x * p.x), b, c);
    MulCong(m, p.y, p.y, p.z, p.z);
    DblCong(m, MulP(m, p.y, p.z), p.y * p.z);
    Reduced(m);
  }

  lemma Reduced(m: nat)
    requires m > 0
    ensures forall a: nat, b: nat :: SubP(m, a, b) < m
    ensures forall a: nat, b: nat :: MulP(m, a, b) < m
    ensures forall a: nat :: DblP(m, a) < m
  {
  }

  lemma DoubleTail(m: nat, p: Jacobian, d: nat, dd: int, b: nat, c: nat)
    requires m > 0 && Cong(d, dd, m) && Cong(b, 4 * p.x * (p.y * p.y), m) && Cong(c, 8 * (p.y * p.y) * (p.y * p.y), m)
    ensures var x3 := SubP(m, MulP(m, d, d), DblP(m, b));
            && Cong(x3, dd * dd - 2 * (4 * p.x * (p.y * p.y)), m)
            && Cong(SubP(m, MulP(m, d, SubP(m, b, x3)), c),
                    dd * (4 * p.x * (p.y * p.y) - (dd * dd - 2 * (4 * p.x * (p.y * p.y)))) - 8 * (p.y * p.y) * (p.y * p.y), m)
  {
    hide Cong, MulP, AddP, SubP, DblP;
    var bb := 4 * p.x * (p.y * p.y);
    MulCong(m, d, dd, d, dd);
    DblCong(m, b, bb);
    SubCong(m, MulP(m, d, d), dd * dd, DblP(m, b), 2 * bb);
    var x3 := SubP(m, MulP(m, d, d), DblP(m, b));
    SubCong(m, b, bb, x3, dd * dd - 2 * bb);
    MulCong(m, d, dd, SubP(m, b, x3), bb - (dd * dd - 2 * bb));
    SubCong(m, MulP(m, d, SubP(m, b, x3)), dd * (bb - (dd * dd - 2 * bb)), c, 8 * (p.y * p.y) * (p.y * p.y));
  }

  /** `(a + b)^2 - a^2 - b^2` is `2 a b`. */
  lemma Twice(m: nat, a: nat, b: nat)
    requires m > 0
    ensures var s := AddP(m, a, b);
            Cong(SubP(m, SubP(m, MulP(m, s, s), MulP(m, a, a)), MulP(m, b, b)), 2 * (a * b), m)
  {
    hide Cong, MulP, AddP, SubP, DblP;
    CongRefl(a, m);
    CongRefl(b, m);
    AddCong(m, a, a, b, b);
    var s := AddP(m, a, b);
    MulCong(m, s, a + b, s, a + b);
    MulCong(m, a, a, a, a);
    MulCong(m, b, b, b, b);
    SubCong(m, MulP(m, s, s), (a + b) * (a + b), MulP(m, a, a), a * a);
    SubCong(m, SubP(m, MulP(m, s, s), MulP(m, a, a)), (a + b) * (a + b) - a * a, MulP(m, b, b), b * b);
    assert (a + b) * (a + b) - a * a - b * b == 2 * (a * b);
  }

  lemma ANeg3Doubles(m: nat, p: Jacobian)
    requires m > 0
    ensures Doubles(m, p, 3 * ((p.x - p.z * p.z) * (p.x + p.z * p.z)), DoubleANeg3(m, p))
  {
    hide Cong, MulP, AddP, SubP, DblP;
    var yy, zz := p.y * p.y, p.z * p.z;
    CongRefl(p.x, m);
    CongRefl(p.y, m);
    CongRefl(p.z, m);
    MulCong(m, p.z, p.z, p.z, p.z);
    var delta := MulP(m, p.z, p.z);
    MulCong(m, p.y, p.y, p.y, p.y);
    var gamma := MulP(m, p.y, p.y);
    MulCong(m, p.x, p.x, gamma, yy);
    var beta := MulP(m, p.x, gamma);
    SubCong(m, p.x, p.x, delta, zz);
    AddCong(m, p.x, p.x, delta, zz);
    MulCong(m, SubP(m, p.x, delta), p.x - zz, AddP(m, p.x, delta), p.x + zz);
    var diffProd := MulP(m, SubP(m, p.x, delta), AddP(m, p.x, delta));
    var dp := (p.x - zz) * (p.x + zz);
    DblCong(m, diffProd, dp);
    AddCong(m, DblP(m, diffProd), 2 * dp, diffProd, dp);
    var alpha := AddP(m, DblP(m, diffProd), diffProd);
    DblCong(m, beta, p.x * yy);
    DblCong(m, DblP(m, beta), 2 * (p.x * yy));
    var beta4 := DblP(m, DblP(m, beta));
    assert 2 * (2 * (p.x * yy)) == 4 * p.x * yy;
    MulCong(m, gamma, yy, gamma, yy);
    DblCong(m, MulP(m, gamma, gamma), yy * yy);
    DblCong(m, DblP(m, MulP(m, gamma, gamma)), 2 * (yy * yy));
    DblCong(m, DblP(m, DblP(m, MulP(m, gamma, gamma))), 2 * (2 * (yy * yy)));
    assert 2 * (2 * (2 * (yy * yy))) == 8 * yy * yy;
    DoubleTail(m, p, alpha, 3 * dp, beta4, DblP(m, DblP(m, DblP(m, MulP(m, gamma, gamma)))));
    Twice(m, p.y, p.z);
    Reduced(m);
  }

  /** The numerator of the tangent slope, scaled by `Z^4`. */
  function Numerator(a: int, p: Jacobian): int {
    if a == 0 then 3 * (p.x * p.x) else 3 * ((p.x - p.z * p.z) * (p.x + p.z * p.z))
  }

  lemma NumeratorScales(c: Curve, p: Jacobian, x: nat)
    requires ValidCurve(c) && Cong(p.x, x * (p.z * p.z), c.m)
    ensures Cong(Numerator(c.a, p), (3 * x * x + c.a) * ((p.z * p.z) * (p.z * p.z)), c.m)
  {
    hide Cong, Prime;
    var m := c.m;
    var zz := p.z * p.z;
    if c.a == 0 {
      CongMul(p.x, x * zz, p.x, x * zz, m);
      CongRefl(3, m);
      CongMul(3, 3, p.x * p.x, (x * zz) * (x * zz), m);
      assert 3 * ((x * zz) * (x * zz)) == (3 * x * x + 0) * (zz * zz);
    } else {
      CongRefl(zz, m);
      CongAdd(p.x, x * zz, zz, zz, m);
      CongMul(p.x - zz, x * zz - zz, p.x + zz, x * zz + zz, m);
      CongRefl(3, m);
      CongMul(3, 3, (p.x - zz) * (p.x + zz), (x * zz - zz) * (x * zz + zz), m);
      DifferenceOfSquares(x, zz);
    }
  }

  lemma DifferenceOfSquares(x: int, z: int)
    ensures 3 * ((x * z - z) * (x * z + z)) == (3 * x * x - 3) * (z * z)
  {
    assert (x * z - z) * (x * z + z) == (x * z) * (x * z) - z * z;
    assert (x * z) * (x * z) == (x * x) * (z * z);
  }

  /** The numerator is `2 l k`, for the tangent slope `l` and `k = Y Z`. */
  lemma TangentNumerator(c: Curve, p: Jacobian, x: nat, y: nat, l: nat)
    requires ValidCurve(c) && Stands(c.m, p, Affine(x, y))
    requires Cong(l * (2 * y), 3 * x * x + c.a, c.m)
    ensures Cong(Numerator(c.a, p), 2 * l * (p.y * p.z), c.m)
  {
    hide Cong, Prime;
    var m := c.m;
    var z4 := (p.z * p.z) * (p.z * p.z);
    NumeratorScales(c, p, x);
    CongRefl(z4, m);
    CongMul(l * (2 * y), 3 * x * x + c.a, z4, z4, m);
    CongSym(l * (2 * y) * z4, (3 * x * x + c.a) * z4, m);
    CongTrans(Numerator(c.a, p), (3 * x * x + c.a) * z4, l * (2 * y) * z4, m);
    CongRefl(2 * l, m);
    CongRefl(p.z, m);
    CongMul(p.y, y * (p.z * p.z * p.z), p.z, p.z, m);
    CongMul(2 * l, 2 * l, p.y * p.z, y * (p.z * p.z * p.z) * p.z, m);
    FourthPower(l, y, p.z);
    CongSym(2 * l * (p.y * p.z), 2 * l * (y * (p.z * p.z * p.z) * p.z), m);
    CongTrans(Numerator(c.a, p), l * (2 * y) * z4, 2 * l * (p.y * p.z), m);
  }

  lemma FourthPower(l: int, y: int, z: int)
    ensures 2 * l * (y * (z * z * z) * z) == l * (2 * y) * ((z * z) * (z * z))
  {
    assert (z * z * z) * z == (z * z) * (z * z);
    assert y * (z * z * z) * z == y * ((z * z) * (z * z));
  }

  /** `4 X Y^2` in terms of `k = Y Z`. */
  lemma TangentB(m: nat, p: Jacobian, x: nat)
    requires m > 0 && Cong(p.x, x * (p.z * p.z), m)
    ensures var k := p.y * p.z;
            && Cong(4 * p.x * (p.y * p.y), 4 * x * (k * k), m)
            && Cong(2 * (4 * p.x * (p.y * p.y)), 4 * (k * k) * (x + x), m)
  {
    hide Cong;
    var kk, yy, zz := (p.y * p.z) * (p.y * p.z), p.y * p.y, p.z * p.z;
    Regroup(p.y, p.z);
    CongRefl(4 * yy, m);
    CongMul(4 * yy, 4 * yy, p.x, x * zz, m);
    Scaled(yy, p.x);
    ScaledTwice(yy, x, zz);
    CongRefl(2, m);
    CongMul(2, 2, 4 * p.x * yy, 4 * x * kk, m);
    assert 2 * (4 * x * kk) == 4 * kk * (x + x);
  }

  lemma Scaled(a: int, b: int)
    ensures 4 * a * b == 4 * b * a
  {
  }

  lemma ScaledTwice(a: int, b: int, c: int)
    ensures 4 * a * (b * c) == 4 * b * (a * c)
  {
    assert a * (b * c) == b * (a * c);
  }

  /** `8 Y^4` in terms of `k = Y Z`. */
  lemma TangentC(m: nat, p: Jacobian, y: nat)
    requires m > 0 && Cong(p.y, y * (p.z * p.z * p.z), m)
    ensures var k := p.y * p.z; Cong(8 * (p.y * p.y) * (p.y * p.y), 8 * (k * k * k) * y, m)
  {
    hide Cong;
    var y3, z3 := p.y * p.y * p.y, p.z * p.z * p.z;
    Regroup(p.y, p.z);
    CongRefl(8 * y3, m);
    CongMul(8 * y3, 8 * y3, p.y, y * z3, m);
    Fourth(p.y);
    EightTimes(y3, y, z3);
  }

  lemma Fourth(y: int)
    ensures 8 * (y * y * y) * y == 8 * (y * y) * (y * y)
  {
    assert (y * y * y) * y == (y * y) * (y * y);
  }

  lemma EightTimes(a: int, b: int, c: int)
    ensures 8 * a * (b * c) == 8 * (a * c) * b
  {
    assert a * (b * c) == (a * c) * b;
  }

  lemma Regroup(y: int, z: int)
    ensures (y * z) * (y * z) == (y * y) * (z * z)
    ensures (y * z) * (y * z) * (y * z) == (y * y * y) * (z * z * z)
  {
    assert (y * y) * (z * z) * (y * z) == (y * y * y) * (z * z * z);
  }

  lemma DoubleDoubles(c: Curve, p: Jacobian)
    requires ValidCurve(c)
    ensures Doubles(c.m, p, Numerator(c.a, p), Double(c.m, c.a, p))
  {
    if c.a == 0 {
      AZeroDoubles(c.m, p);
    } else {
      ANeg3Doubles(c.m, p);
    }
  }

  lemma TwoNonZero(m: nat)
    requires Prime(m) && m > 3
    ensures !Cong(2, 0, m)
  {
    NonZero(m, 2);
    assert 2 % m == 2;
  }

  lemma SmallNonZero(m: nat, a: nat)
    requires Prime(m) && 0 < a < m
    ensures !Cong(a, 0, m)
  {
    NonZero(m, a);
  }

  /** Doubling a point with ordinate zero gives infinity. */
  lemma FlatDouble(c: Curve, p: Jacobian)
    requires ValidCurve(c) && p.y == 0
    ensures Stands(c.m, Double(c.m, c.a, p), Infinity)
  {
    hide Cong, Prime, Double, Numerator;
    DoubleDoubles(c, p);
    assert 2 * (p.y * p.z) == 0;
    CongSmall(Double(c.m, c.a, p).z, 0, c.m);
  }

  /** Both doublings give the tangent sum, for every point and the identity. */
  lemma DoubleCorrect(c: Curve, p: Jacobian, a: Point)
    requires ValidCurve(c) && Stands(c.m, p, a)
    ensures Stands(c.m, Double(c.m, c.a, p), Sum(c, a, a))
  {
    hide Cong, Prime, Double, Numerator, OnLine, Slope;
    var m := c.m;
    DoubleDoubles(c, p);
    var r := Double(m, c.a, p);
    if a.Infinity? || a.y == 0 {
      var k := p.y * p.z;
      ZeroProduct(m, p, a);
      CongRefl(2, m);
      CongMul(2, 2, k, 0, m);
      CongTrans(r.z, 2 * k, 0, m);
      CongRefl(0, m);
      CongSmall(r.z, 0, m);
      OppositeSelf(c, a);
    } else {
      var x, y, k, l := a.x, a.y, p.y * p.z, Slope(c, a, a);
      TangentSlope(c, a);
      TangentNumerator(c, p, x, y, l);
      TangentB(m, p, x);
      TangentC(m, p, y);
      var d, b4 := Numerator(c.a, p), 4 * p.x * (p.y * p.y);
      assert 2 * l * k == 2 * l * (p.y * p.z);
      LineEnds(m, d, b4, 2 * b4, 8 * (p.y * p.y) * (p.y * p.y), l, k, x, y, x);
      var s := l * l - x - x;
      CongTrans(r.x, d * d - 2 * b4, 4 * (k * k) * s, m);
      CongTrans(r.y, d * (b4 - (d * d - 2 * b4)) - 8 * (p.y * p.y) * (p.y * p.y), 8 * (k * k * k) * (l * (x - s) - y), m);
      TangentNonZero(m, p, a);
      StandsOnLine(m, r, l, x, y, x, k);
    }
  }

  lemma ZeroProduct(m: nat, p: Jacobian, a: Point)
    requires m > 0 && Stands(m, p, a) && (a.Infinity? || a.y == 0)
    ensures Cong(p.y * p.z, 0, m)
  {
    if a.Infinity? {
      CongRefl(0, m);
      assert p.y * p.z == 0;
    } else {
      CongRefl(p.z, m);
      CongMul(p.y, 0, p.z, p.z, m);
    }
  }

  lemma OppositeSelf(c: Curve, a: Point)
    requires ValidCurve(c) && (a.Infinity? || a.y == 0)
    ensures Sum(c, a, a) == Infinity
  {
  }

  lemma TangentNonZero(m: nat, p: Jacobian, a: Point)
    requires Prime(m) && m > 3 && Stands(m, p, a) && a.Affine? && a.y != 0
    ensures !Cong(2 * (p.y * p.z), 0, m)
  {
    hide Cong, Prime;
    var y, z := a.y, p.z;
    TwoNonZero(m);
    SmallNonZero(m, z);
    SmallNonZero(m, y);
    ProductNonZero(m, z, z);
    ProductNonZero(m, z * z, z);
    ProductNonZero(m, y, z * z * z);
    if Cong(p.y, 0, m) {
      CongSym(p.y, y * (z * z * z), m);
      CongTrans(y * (z * z * z), p.y, 0, m);
    }
    ProductNonZero(m, p.y, z);
    ProductNonZero(m, 2, p.y * z);
  }

  lemma TangentSlope(c: Curve, a: Point)
    requires ValidCurve(c) && a.Affine? && 0 < a.y < c.m
    ensures Cong(Slope(c, a, a) * (2 * a.y), 3 * a.x * a.x + c.a, c.m)
    ensures Sum(c, a, a) == OnLine(c.m, Slope(c, a, a), a.x, a.y, a.x)
  {
    hide Cong, Prime, InverseMod, OnLine;
    var m := c.m;
    TwoNonZero(m);
    SmallNonZero(m, a.y);
    ProductNonZero(m, 2, a.y);
    NonZero(m, 2 * a.y);
    QuotientWorks(m, 3 * a.x * a.x + c.a, 2 * a.y);
  }

  // ── Addition ─────────────────────────────────────────────────────────────

  /** What the regular formula computes from `h` and `s`. */
  ghost predicate Adds(m: nat, p: Jacobian, h: nat, s: nat, r: Jacobian)
    requires m > 0
  {
    && r.x < m && r.y < m && r.z < m
    && Cong(r.x, 2 * s * (2 * s) - (4 * (h * h) * h + 2 * (p.x * (4 * (h * h)))), m)
    && Cong(r.y, 2 * s * (p.x * (4 * (h * h)) - (2 * s * (2 * s) - (4 * (h * h) * h + 2 * (p.x * (4 * (h * h))))))
                 - 2 * (p.y * (4 * (h * h) * h)), m)
    && Cong(r.z, 2 * (p.z * h), m)
  }

  lemma RegularAdds(m: nat, p: Jacobian, x2: nat, y2: nat)
    requires m > 0
    ensures Adds(m, p, MixedH(m, p, x2), MixedS(m, p, y2), AddMixedRegular(m, p, x2, y2))
  {
    hide Cong, MulP, AddP, SubP, DblP, MixedH, MixedS;
    var h, s := MixedH(m, p, x2), MixedS(m, p, y2);
    CongRefl(p.x, m);
    CongRefl(p.y, m);
    CongRefl(p.z, m);
    CongRefl(h, m);
    CongRefl(s, m);
    MulCong(m, h, h, h, h);
    var hh := MulP(m, h, h);
    DblCong(m, hh, h * h);
    DblCong(m, DblP(m, hh), 2 * (h * h));
    var i := DblP(m, DblP(m, hh));
    var ii := 4 * (h * h);
    assert 2 * (2 * (h * h)) == ii;
    MulCong(m, h, h, i, ii);
    var j := MulP(m, h, i);
    assert h * ii == ii * h;
    DblCong(m, s, s);
    var r := DblP(m, s);
    MulCong(m, p.x, p.x, i, ii);
    var v := MulP(m, p.x, i);
    MulCong(m, r, 2 * s, r, 2 * s);
    DblCong(m, v, p.x * ii);
    SubCong(m, MulP(m, r, r), 2 * s * (2 * s), j, ii * h);
    SubCong(m, SubP(m, MulP(m, r, r), j), 2 * s * (2 * s) - ii * h, DblP(m, v), 2 * (p.x * ii));
    var x3 := SubP(m, SubP(m, MulP(m, r, r), j), DblP(m, v));
    var xx := 2 * s * (2 * s) - (ii * h + 2 * (p.x * ii));
    assert 2 * s * (2 * s) - ii * h - 2 * (p.x * ii) == xx;
    SubCong(m, v, p.x * ii, x3, xx);
    MulCong(m, r, 2 * s, SubP(m, v, x3), p.x * ii - xx);
    MulCong(m, p.y, p.y, j, ii * h);
    DblCong(m, MulP(m, p.y, j), p.y * (ii * h));
    SubCong(m, MulP(m, r, SubP(m, v, x3)), 2 * s * (p.x * ii - xx), DblP(m, MulP(m, p.y, j)), 2 * (p.y * (ii * h)));
    Twice(m, p.z, h);
    Reduced(m);
  }

  /** The two differences are those of the affine coordinates, scaled. */
  lemma MixedDifferences(m: nat, p: Jacobian, a: Point, x2: nat, y2: nat)
    requires m > 0 && Stands(m, p, a) && a.Affine?
    ensures Cong(MixedH(m, p, x2), (x2 - a.x) * (p.z * p.z), m)
    ensures Cong(MixedS(m, p, y2), (y2 - a.y) * (p.z * p.z * p.z), m)
  {
    hide Cong, MulP, SubP;
    CongRefl(p.z, m);
    CongRefl(x2, m);
    CongRefl(y2, m);
    MulCong(m, p.z, p.z, p.z, p.z);
    MulCong(m, x2, x2, MulP(m, p.z, p.z), p.z * p.z);
    SubCong(m, MulP(m, x2, MulP(m, p.z, p.z)), x2 * (p.z * p.z), p.x, a.x * (p.z * p.z));
    assert x2 * (p.z * p.z) - a.x * (p.z * p.z) == (x2 - a.x) * (p.z * p.z);
    MulCong(m, y2, y2, p.z, p.z);
    MulCong(m, MulP(m, y2, p.z), y2 * p.z, MulP(m, p.z, p.z), p.z * p.z);
    assert (y2 * p.z) * (p.z * p.z) == y2 * (p.z * p.z * p.z);
    SubCong(m, MulP(m, MulP(m, y2, p.z), MulP(m, p.z, p.z)), y2 * (p.z * p.z * p.z), p.y, a.y * (p.z * p.z * p.z));
    assert y2 * (p.z * p.z * p.z) - a.y * (p.z * p.z * p.z) == (y2 - a.y) * (p.z * p.z * p.z);
  }

  /** A scaled difference of residues vanishes when they are equal. */
  lemma ScaledDifference(m: nat, v: nat, a: nat, b: nat, z: int)
    requires Prime(m) && v < m && a < m && b < m && !Cong(z, 0, m) && Cong(v, (b - a) * z, m)
    ensures v == 0 <==> a == b
  {
    hide Cong, Prime;
    CongRefl(0, m);
    if v == 0 {
      CongSym(v, (b - a) * z, m);
      Euclid(m, b - a, z);
      CongRefl(a, m);
      CongAdd(b - a, 0, a, a, m);
      CongSmall(b, a, m);
    } else if a == b {
      assert (b - a) * z == 0;
      CongSmall(v, 0, m);
    }
  }

  lemma FlagsExact(m: nat, p: Jacobian, a: Point, x2: nat, y2: nat)
    requires Prime(m) && Stands(m, p, a) && a.Affine? && x2 < m && y2 < m
    ensures MixedH(m, p, x2) == 0 <==> a.x == x2
    ensures MixedS(m, p, y2) == 0 <==> a.y == y2
  {
    hide Cong, Prime, MixedH, MixedS;
    MixedDifferences(m, p, a, x2, y2);
    SmallNonZero(m, p.z);
    ProductNonZero(m, p.z, p.z);
    ProductNonZero(m, p.z * p.z, p.z);
    MixedReduced(m, p, x2, y2);
    ScaledDifference(m, MixedH(m, p, x2), a.x, x2, p.z * p.z);
    ScaledDifference(m, MixedS(m, p, y2), a.y, y2, p.z * p.z * p.z);
  }

  lemma MixedReduced(m: nat, p: Jacobian, x2: nat, y2: nat)
    requires m > 0
    ensures MixedH(m, p, x2) < m && MixedS(m, p, y2) < m
  {
  }

  lemma ChordSlope(c: Curve, a: Point, b: Point)
    requires ValidCurve(c) && a.Affine? && b.Affine? && a.x < c.m && b.x < c.m && a.x != b.x
    ensures Cong(Slope(c, a, b) * (b.x - a.x), b.y - a.y, c.m)
    ensures Sum(c, a, b) == OnLine(c.m, Slope(c, a, b), a.x, a.y, b.x)
  {
    hide Cong, Prime, InverseMod, OnLine;
    var m := c.m;
    if Cong(b.x - a.x, 0, m) {
      CongRefl(a.x, m);
      CongAdd(b.x - a.x, 0, a.x, a.x, m);
      CongSmall(b.x, a.x, m);
    }
    QuotientWorks(m, b.y - a.y, b.x - a.x);
  }

  /** The scaled difference of the ordinates is `l k`, for the chord slope `l`
      and `k = Z h`. */
  lemma ChordNumerator(m: nat, p: Jacobian, h: nat, s: nat, dx: int, dy: int, l: nat)
    requires m > 0 && Cong(h, dx * (p.z * p.z), m) && Cong(s, dy * (p.z * p.z * p.z), m) && Cong(l * dx, dy, m)
    ensures Cong(2 * s, 2 * l * (p.z * h), m)
  {
    hide Cong;
    var z3 := p.z * p.z * p.z;
    CongRefl(z3, m);
    CongMul(l * dx, dy, z3, z3, m);
    CongSym(l * dx * z3, dy * z3, m);
    CongTrans(s, dy * z3, l * dx * z3, m);
    CongRefl(l * p.z, m);
    CongMul(l * p.z, l * p.z, h, dx * (p.z * p.z), m);
    assert l * p.z * (dx * (p.z * p.z)) == l * dx * z3;
    CongSym(l * p.z * h, l * dx * z3, m);
    CongTrans(s, l * dx * z3, l * p.z * h, m);
    CongRefl(2, m);
    CongMul(2, 2, s, l * p.z * h, m);
    assert 2 * (l * p.z * h) == 2 * l * (p.z * h);
  }

  /** The remaining terms of the chord formula in terms of `k = Z h`. */
  lemma ChordV(m: nat, p: Jacobian, h: nat, x: nat)
    requires m > 0 && Cong(p.x, x * (p.z * p.z), m)
    ensures var k := p.z * h; Cong(p.x * (4 * (h * h)), 4 * x * (k * k), m)
  {
    hide Cong;
    var zz, hh := p.z * p.z, h * h;
    Regroup(p.z, h);
    CongRefl(4 * hh, m);
    CongMul(p.x, x * zz, 4 * hh, 4 * hh, m);
    assert x * zz * (4 * hh) == 4 * x * (zz * hh);
  }

  lemma ChordW(m: nat, p: Jacobian, h: nat, x: nat, x2: nat)
    requires m > 0 && Cong(p.x, x * (p.z * p.z), m) && Cong(h, (x2 - x) * (p.z * p.z), m)
    ensures var k := p.z * h; Cong(4 * (h * h) * h + 2 * (p.x * (4 * (h * h))), 4 * (k * k) * (x + x2), m)
  {
    hide Cong;
    var zz, hh := p.z * p.z, h * h;
    Regroup(p.z, h);
    CongRefl(4 * hh, m);
    CongRefl(2, m);
    CongMul(2, 2, p.x, x * zz, m);
    CongAdd(h, (x2 - x) * zz, 2 * p.x, 2 * (x * zz), m);
    assert (x2 - x) * zz + 2 * (x * zz) == (x + x2) * zz;
    CongMul(4 * hh, 4 * hh, h + 2 * p.x, (x + x2) * zz, m);
    assert 4 * hh * (h + 2 * p.x) == 4 * hh * h + 2 * (p.x * (4 * hh));
    ChordScale(hh, zz, x + x2);
  }

  lemma ChordScale(hh: int, zz: int, t: int)
    ensures 4 * hh * (t * zz) == 4 * (zz * hh) * t
  {
    assert hh * (t * zz) == (zz * hh) * t;
  }

  lemma ChordC(m: nat, p: Jacobian, h: nat, y: nat)
    requires m > 0 && Cong(p.y, y * (p.z * p.z * p.z), m)
    ensures var k := p.z * h; Cong(2 * (p.y * (4 * (h * h) * h)), 8 * (k * k * k) * y, m)
  {
    hide Cong;
    var z3, h3 := p.z * p.z * p.z, h * h * h;
    Regroup(p.z, h);
    CongRefl(8 * h3, m);
    CongMul(8 * h3, 8 * h3, p.y, y * z3, m);
    Cubed(p.y, h);
    EightTimes(h3, y, z3);
    assert h3 * z3 == z3 * h3;
  }

  lemma Cubed(y: int, h: int)
    ensures 8 * (h * h * h) * y == 2 * (y * (4 * (h * h) * h))
  {
    assert 4 * (h * h) * h == 4 * (h * h * h);
  }

  /** The regular formula gives the chord sum when the abscissas differ. */
  lemma RegularCorrect(c: Curve, p: Jacobian, a: Point, x2: nat, y2: nat)
    requires ValidCurve(c) && Stands(c.m, p, a) && a.Affine? && x2 < c.m && y2 < c.m && a.x != x2
    ensures Stands(c.m, AddMixedRegular(c.m, p, x2, y2), Sum(c, a, Affine(x2, y2)))
  {
    hide Cong, Prime, MixedH, MixedS, AddMixedRegular, OnLine, Slope;
    var m := c.m;
    var h, s := MixedH(m, p, x2), MixedS(m, p, y2);
    var r := AddMixedRegular(m, p, x2, y2);
    var b := Affine(x2, y2);
    var l, k := Slope(c, a, b), p.z * h;
    RegularAdds(m, p, x2, y2);
    MixedDifferences(m, p, a, x2, y2);
    ChordSlope(c, a, b);
    ChordNumerator(m, p, h, s, x2 - a.x, y2 - a.y, l);
    ChordV(m, p, h, a.x);
    ChordW(m, p, h, a.x, x2);
    ChordC(m, p, h, a.y);
    var d, v, w, e := 2 * s, p.x * (4 * (h * h)), 4 * (h * h) * h + 2 * (p.x * (4 * (h * h))), 2 * (p.y * (4 * (h * h) * h));
    LineEnds(m, d, v, w, e, l, k, a.x, a.y, x2);
    var t := l * l - a.x - x2;
    CongTrans(r.x, d * d - w, 4 * (k * k) * t, m);
    CongTrans(r.y, d * (v - (d * d - w)) - e, 8 * (k * k * k) * (l * (a.x - t) - a.y), m);
    FlagsExact(m, p, a, x2, y2);
    MixedReduced(m, p, x2, y2);
    TwoNonZero(m);
    SmallNonZero(m, p.z);
    SmallNonZero(m, h);
    ProductNonZero(m, p.z, h);
    ProductNonZero(m, 2, k);
    StandsOnLine(m, r, l, a.x, a.y, x2, k);
  }

  /** Points of the curve over one abscissa are equal or opposite. */
  lemma SameAbscissa(c: Curve, a: Point, b: Point)
    requires ValidCurve(c) && OnCurve(c, a) && OnCurve(c, b) && a.Affine? && b.Affine? && a.x == b.x && a.y != b.y
    ensures (a.y + b.y) % c.m == 0
  {
    EqualSquares(c.m, a.y, b.y, a.x * a.x * a.x + c.a * a.x + c.b);
  }

  /** Different roots of one residue are opposite. */
  lemma EqualSquares(m: nat, y: nat, z: nat, rhs: int)
    requires Prime(m) && y < m && z < m && Cong(y * y, rhs, m) && Cong(z * z, rhs, m) && y != z
    ensures (y + z) % m == 0
  {
    hide Cong, Prime;
    CongSym(z * z, rhs, m);
    CongTrans(y * y, rhs, z * z, m);
    CongRefl(z * z, m);
    CongAdd(y * y, z * z, z * z, z * z, m);
    assert (y - z) * (y + z) == y * y - z * z;
    Euclid(m, y - z, y + z);
    if Cong(y - z, 0, m) {
      CongRefl(z, m);
      CongAdd(y - z, 0, z, z, m);
      CongSmall(y, z, m);
    }
    NonZero(m, y + z);
  }

  lemma AffineStands(m: nat, x: nat, y: nat)
    requires m > 1 && x < m && y < m
    ensures Stands(m, Jacobian(x, y, 1), Affine(x, y))
  {
    CongRefl(x, m);
    CongRefl(y, m);
  }

  /** The point the affine operand and its flag stand for. */
  function Operand(x2: nat, y2: nat, qInfinity: bool): Point {
    if qInfinity then Infinity else Affine(x2, y2)
  }

  /** The complete addition gives the sum for every pair of curve points:
      distinct, equal, opposite, and with either or both at infinity. */
  lemma AddMixedCorrect(c: Curve, p: Jacobian, a: Point, x2: nat, y2: nat, qInfinity: bool)
    requires ValidCurve(c) && Stands(c.m, p, a) && OnCurve(c, a) && x2 < c.m && y2 < c.m
    requires OnCurve(c, Operand(x2, y2, qInfinity))
    ensures Stands(c.m, AddMixedComplete(c.m, c.a, p, x2, y2, qInfinity), Sum(c, a, Operand(x2, y2, qInfinity)))
  {
    hide Cong, Prime, MixedH, MixedS, AddMixedRegular, Double, OnLine, Slope, OnCurve;
    if a.Infinity? {
      if !qInfinity {
        AffineStands(c.m, x2, y2);
      }
    } else if qInfinity {
    } else {
      FlagsExact(c.m, p, a, x2, y2);
      var b := Affine(x2, y2);
      if a.x != x2 {
        RegularCorrect(c, p, a, x2, y2);
      } else if a.y == y2 {
        DoubleCorrect(c, p, a);
      } else {
        SameAbscissa(c, a, b);
      }
    }
  }

  // ── Back to affine coordinates ───────────────────────────────────────────

  function ToAffine(m: nat, p: Jacobian): (nat, nat)
    requires m > 1
  {
    var zInv := InverseMod(m, p.z);
    var zInvSq := MulP(m, zInv, zInv);
    var zInvCu := MulP(m, zInvSq, zInv);
    (MulP(m, p.x, zInvSq), MulP(m, p.y, zInvCu))
  }

  /** Multiplying by the inverse of the scale of a coordinate recovers it. */
  lemma Unscaled(m: nat, v: nat, a: nat, scale: int, inv: int, r: nat)
    requires m > 0 && a < m && Cong(v, a * scale, m) && Cong(r, inv, m) && Cong(scale * inv, 1, m)
    ensures MulP(m, v, r) == a
  {
    hide Cong, MulP;
    MulCong(m, v, a * scale, r, inv);
    CongRefl(a, m);
    CongMul(a, a, scale * inv, 1, m);
    assert a * scale * inv == a * (scale * inv);
    CongTrans(MulP(m, v, r), a * scale * inv, a, m);
    MulReduced(m, v, r);
    CongSmall(MulP(m, v, r), a, m);
  }

  lemma ToAffineCorrect(m: nat, p: Jacobian, a: Point)
    requires Prime(m) && Stands(m, p, a) && a.Affine?
    ensures ToAffine(m, p) == (a.x, a.y)
  {
    hide Cong, Prime, MulP, InverseMod;
    var z, i := p.z, InverseMod(m, p.z);
    SmallNonZero(m, z);
    InverseWorks(m, z);
    CongRefl(i, m);
    MulCong(m, i, i, i, i);
    var i2 := MulP(m, i, i);
    MulCong(m, i2, i * i, i, i);
    CongMul(z * i, 1, z * i, 1, m);
    CongMul((z * i) * (z * i), 1, z * i, 1, m);
    Regroup(z, i);
    Unscaled(m, p.x, a.x, z * z, i * i, i2);
    Unscaled(m, p.y, a.y, z * z * z, (i * i) * i, MulP(m, i2, i));
  }

  lemma MulReduced(m: nat, a: nat, b: nat)
    requires m > 0
    ensures MulP(m, a, b) < m
  {
  }
}
