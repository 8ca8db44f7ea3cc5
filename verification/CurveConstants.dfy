/** The constants of the two curves (`constants.rs`), and that they are what they
    are called: the primes of the fields, half of the orders, points of the curves. */
module CurveConstants {
  import opened Felts
  import opened Limbs
  import opened Solinas
  import opened CurveOrders
  import opened Barrett
  import opened PowersOfTwo
  import opened ModArith
  import opened Inversion
  import opened Jacobians
  import opened PointLimbs
  import opened Shamir

  const SECP256K1_HALF_N_PLUS_ONE: seq<Felt> := [0xDFE92F46681B20A1, 0x5D576E7357A4501D, 0xFFFFFFFFFFFFFFFF, 0x7FFFFFFFFFFFFFFF]
  const SECP256K1_B: seq<Felt> := [7, 0, 0, 0]
  const SECP256K1_G: AffineLimbs := AffineLimbs(
    [0x59F2815B16F81798, 0x029BFCDB2DCE28D9, 0x55A06295CE870B07, 0x79BE667EF9DCBBAC],
    [0x9C47D08FFB10D4B8, 0xFD17B448A6855419, 0x5DA4FBFC0E1108A8, 0x483ADA7726A3C465])
  const SECP256R1_HALF_N_PLUS_ONE: seq<Felt> := [0x79DCE5617E3192A9, 0xDE737D56D38BCF42, 0x7FFFFFFFFFFFFFFF, 0x7FFFFFFF80000000]
  const SECP256R1_B: seq<Felt> := [0x3BCE3C3E27D2604B, 0x651D06B0CC53B0F6, 0xB3EBBD55769886BC, 0x5AC635D8AA3A93E7]
  const SECP256R1_G: AffineLimbs := AffineLimbs(
    [0xF4A13945D898C296, 0x77037D812DEB33A0, 0xF8BCE6E563A440F2, 0x6B17D1F2E12C4247],
    [0xCBB6406837BF51F5, 0x2BCE33576B315ECE, 0x8EE7EB4A7C0F9E16, 0x4FE342E2FE1A7F9B])

  function Order(id: CurveId): seq<Felt> {
    if id.Secp256k1? then SECP256K1_N else SECP256R1_N
  }

  function HalfOrderPlusOne(id: CurveId): seq<Felt> {
    if id.Secp256k1? then SECP256K1_HALF_N_PLUS_ONE else SECP256R1_HALF_N_PLUS_ONE
  }

  function CoefficientB(id: CurveId): seq<Felt> {
    if id.Secp256k1? then SECP256K1_B else SECP256R1_B
  }

  function Generator(id: CurveId): AffineLimbs {
    if id.Secp256k1? then SECP256K1_G else SECP256R1_G
  }

  /** The smaller top limb decides. */
  lemma TopLimbDecides(a: seq<nat>, b: seq<nat>)
    requires IsLimbs(a, LIMBS) && IsLimbs(b, LIMBS) && a[3] < b[3]
    ensures Val(a) < Val(b)
  {
    hide Val;
    FourLimbs(a);
    FourLimbs(b);
  }

  lemma ConstantsInField(id: CurveId)
    ensures FieldAffine(id, Generator(id)) && FieldElement(id, CoefficientB(id)) && FieldElement(id, [3, 0, 0, 0])
    ensures Val(Generator(id).y) > 0
  {
    hide Val;
    TopLimbDecides(Generator(id).x, FieldLimbs(id));
    TopLimbDecides(Generator(id).y, FieldLimbs(id));
    TopLimbDecides(CoefficientB(id), FieldLimbs(id));
    TopLimbDecides([3, 0, 0, 0], FieldLimbs(id));
    FourLimbs(Generator(id).y);
  }

  /** The threshold is half of one more than the order. */
  lemma HalfOrder(id: CurveId)
    ensures IsLimbs(HalfOrderPlusOne(id), LIMBS) && 2 * Val(HalfOrderPlusOne(id)) == Val(Order(id)) + 1
  {
    hide Val;
    FourLimbs(HalfOrderPlusOne(id));
    FourLimbs(Order(id));
  }

  lemma OrderFacts(id: CurveId)
    ensures IsLimbs(Order(id), LIMBS) && BarrettModulus(Order(id)) && CurveOrder(Order(id)) && Val(Order(id)) > 2
  {
    CurveModuli(Order(id));
  }

  // ── The primes of the fields ─────────────────────────────────────────────

  /** `t^4 - t / 2^32 ...` with `t = 2^64`, limb by limb. */
  lemma FieldPrimes()
    ensures Val(FieldLimbs(Secp256k1)) + Two(32) + 977 == Two(256)
    ensures Val(FieldLimbs(Secp256r1)) + Two(224) + 1 == Two(256) + Two(192) + Two(96)
  {
    LimbPowers();
    hide Val, Two;
    TwoSum(64, 192);
    TwoSum(64, 128);
    TwoSum(64, 64);
    TwoSum(32, 192);
    TwoSum(32, 64);
    FourLimbs(SECP256K1_P);
    FourLimbs(SECP256R1_P);
    BelowPower(TWO_64, Two(32), 977, SECP256K1_P[0], SECP256K1_P[1], SECP256K1_P[2], SECP256K1_P[3]);
    BelowAndAbove(TWO_64, Two(32), SECP256R1_P[0], SECP256R1_P[1], SECP256R1_P[2], SECP256R1_P[3]);
  }

  lemma BelowPower(t: nat, h: nat, c: nat, a: nat, b: nat, d: nat, e: nat)
    requires t == a + h + c && t == b + 1 == d + 1 == e + 1
    ensures Four(t, a, b, d, e) + h + c == t * (t * (t * t))
  {
  }

  lemma BelowAndAbove(t: nat, h: nat, a: nat, b: nat, d: nat, e: nat)
    requires t == a + 1 && h == b + 1 && d == 0 && t + 1 == e + h
    ensures Four(t, a, b, d, e) + h * (t * (t * t)) + 1 == t * (t * (t * t)) + t * (t * t) + h * t
  {
  }

  // ── Products of limbs ────────────────────────────────────────────────────

  /** Four digits of either sign. */
  function Digits(t: nat, a: int, b: int, c: int, d: int): int {
    a + t * (b + t * (c + t * d))
  }

  lemma FourIsDigits(t: nat, a: nat, b: nat, c: nat, d: nat)
    ensures Four(t, a, b, c, d) == Digits(t, a, b, c, d)
  {
  }

  /** The product as seven columns. */
  lemma ProductColumns(t: nat, a0: nat, a1: nat, a2: nat, a3: nat, b0: nat, b1: nat, b2: nat, b3: nat)
    ensures Four(t, a0, a1, a2, a3) * Four(t, b0, b1, b2, b3) ==
      a0 * b0 + t * Digits(t, a0 * b1 + a1 * b0, a0 * b2 + (a1 * b1 + a2 * b0), a0 * b3 + (a1 * b2 + (a2 * b1 + a3 * b0)),
                           a1 * b3 + (a2 * b2 + a3 * b1) + t * (a2 * b3 + a3 * b2 + t * (a3 * b3)))
  {
    hide *;
    FourTimesFour(t, a0, a1, a2, a3, b0, b1, b2, b3);
    FourIsDigits(t, a0 * b1 + a1 * b0, a0 * b2 + (a1 * b1 + a2 * b0), a0 * b3 + (a1 * b2 + (a2 * b1 + a3 * b0)),
                 a1 * b3 + (a2 * b2 + a3 * b1) + t * (a2 * b3 + a3 * b2 + t * (a3 * b3)));
  }

  /** One column of an equation between sums of columns, with the carry out of it. */
  lemma Column(t: nat, x: int, y: int, r: int, carryIn: int, carryOut: int, xs: int, ys: int, rs: int)
    requires x - y - r + carryIn == t * carryOut && xs == ys + rs - carryOut
    ensures x + t * xs == y + t * ys + (r + t * rs) - carryIn
  {
    assert t * xs == t * ys + t * rs - t * carryOut;
  }

  /** A product is another product and a remainder when the columns say so. */
  lemma ProductIs(t: nat, a0: nat, a1: nat, a2: nat, a3: nat, b0: nat, b1: nat, b2: nat, b3: nat,
                  q0: nat, q1: nat, q2: nat, q3: nat, p0: nat, p1: nat, p2: nat, p3: nat,
                  r0: int, r1: int, r2: int, r3: int, c1: int, c2: int, c3: int, c4: int, c5: int, c6: int)
    requires a0 * b0 - q0 * p0 - r0 == t * c1
    requires a0 * b1 + a1 * b0 - (q0 * p1 + q1 * p0) - r1 + c1 == t * c2
    requires a0 * b2 + (a1 * b1 + a2 * b0) - (q0 * p2 + (q1 * p1 + q2 * p0)) - r2 + c2 == t * c3
    requires a0 * b3 + (a1 * b2 + (a2 * b1 + a3 * b0)) - (q0 * p3 + (q1 * p2 + (q2 * p1 + q3 * p0))) - r3 + c3 == t * c4
    requires a1 * b3 + (a2 * b2 + a3 * b1) - (q1 * p3 + (q2 * p2 + q3 * p1)) + c4 == t * c5
    requires a2 * b3 + a3 * b2 - (q2 * p3 + q3 * p2) + c5 == t * c6
    requires a3 * b3 - q3 * p3 + c6 == 0
    ensures Four(t, a0, a1, a2, a3) * Four(t, b0, b1, b2, b3) == Four(t, q0, q1, q2, q3) * Four(t, p0, p1, p2, p3) + Digits(t, r0, r1, r2, r3)
  {
    hide *;
    ProductColumns(t, a0, a1, a2, a3, b0, b1, b2, b3);
    ProductColumns(t, q0, q1, q2, q3, p0, p1, p2, p3);
    SevenColumns(t, a0 * b0, a0 * b1 + a1 * b0, a0 * b2 + (a1 * b1 + a2 * b0), a0 * b3 + (a1 * b2 + (a2 * b1 + a3 * b0)),
                 a1 * b3 + (a2 * b2 + a3 * b1), a2 * b3 + a3 * b2, a3 * b3,
                 q0 * p0, q0 * p1 + q1 * p0, q0 * p2 + (q1 * p1 + q2 * p0), q0 * p3 + (q1 * p2 + (q2 * p1 + q3 * p0)),
                 q1 * p3 + (q2 * p2 + q3 * p1), q2 * p3 + q3 * p2, q3 * p3, r0, r1, r2, r3, c1, c2, c3, c4, c5, c6);
  }

  lemma SevenColumns(t: nat, x0: nat, x1: nat, x2: nat, x3: nat, x4: nat, x5: nat, x6: nat,
                     y0: nat, y1: nat, y2: nat, y3: nat, y4: nat, y5: nat, y6: nat,
                     r0: int, r1: int, r2: int, r3: int, c1: int, c2: int, c3: int, c4: int, c5: int, c6: int)
    requires x0 - y0 - r0 == t * c1 && x1 - y1 - r1 + c1 == t * c2 && x2 - y2 - r2 + c2 == t * c3
    requires x3 - y3 - r3 + c3 == t * c4 && x4 - y4 + c4 == t * c5 && x5 - y5 + c5 == t * c6 && x6 - y6 + c6 == 0
    ensures x0 + t * Digits(t, x1, x2, x3, x4 + t * (x5 + t * x6))
         == y0 + t * Digits(t, y1, y2, y3, y4 + t * (y5 + t * y6)) + Digits(t, r0, r1, r2, r3)
  {
    hide *;
    ThreeColumns(t, x4, x5, x6, y4, y5, y6, c4, c5, c6);
    FourColumns(t, x0, x1, x2, x3, x4 + t * (x5 + t * x6), y0, y1, y2, y3, y4 + t * (y5 + t * y6), r0, r1, r2, r3, c1, c2, c3, c4);
  }

  lemma ThreeColumns(t: nat, x4: nat, x5: nat, x6: nat, y4: nat, y5: nat, y6: nat, c4: int, c5: int, c6: int)
    requires x4 - y4 + c4 == t * c5 && x5 - y5 + c5 == t * c6 && x6 - y6 + c6 == 0
    ensures x4 + t * (x5 + t * x6) == y4 + t * (y5 + t * y6) - c4
  {
    Column(t, x5, y5, 0, c5, c6, x6, y6, 0);
    Column(t, x4, y4, 0, c4, c5, x5 + t * x6, y5 + t * y6, 0);
  }

  lemma TwoColumns(t: nat, x: int, x': int, xs: int, y: int, y': int, ys: int, r: int, r': int, rs: int, c: int, c': int, c'': int)
    requires x - y - r + c == t * c' && x' - y' - r' + c' == t * c'' && xs == ys + rs - c''
    ensures x + t * (x' + t * xs) == y + t * (y' + t * ys) + (r + t * (r' + t * rs)) - c
  {
    Column(t, x', y', r', c', c'', xs, ys, rs);
    Column(t, x, y, r, c, c', x' + t * xs, y' + t * ys, r' + t * rs);
  }

  lemma FourColumns(t: nat, x0: nat, x1: nat, x2: nat, x3: nat, xs: int, y0: nat, y1: nat, y2: nat, y3: nat, ys: int,
                    r0: int, r1: int, r2: int, r3: int, c1: int, c2: int, c3: int, c4: int)
    requires x0 - y0 - r0 == t * c1 && x1 - y1 - r1 + c1 == t * c2 && x2 - y2 - r2 + c2 == t * c3
    requires x3 - y3 - r3 + c3 == t * c4 && xs == ys - c4
    ensures x0 + t * Digits(t, x1, x2, x3, xs) == y0 + t * Digits(t, y1, y2, y3, ys) + Digits(t, r0, r1, r2, r3)
  {
    TwoColumns(t, x2, x3, xs, y2, y3, ys, r2, r3, 0, c2, c3, c4);
    TwoColumns(t, x0, x1, x2 + t * (x3 + t * xs), y0, y1, y2 + t * (y3 + t * ys), r0, r1, r2 + t * (r3 + t * 0), 0, c1, c2);
  }

  // ── The generators lie on the curves ─────────────────────────────────────

  lemma DigitsMinus(t: nat, u0: nat, u1: nat, u2: nat, u3: nat, b0: nat, b1: nat, b2: nat, b3: nat)
    ensures Digits(t, u0 - b0, u1 - b1, u2 - b2, u3 - b3) == Four(t, u0, u1, u2, u3) - Four(t, b0, b1, b2, b3)
    ensures Digits(t, u0, u1, u2, u3) == Four(t, u0, u1, u2, u3)
  {
    assert t * (u3 - b3) == t * u3 - t * b3;
    var d, e := u3 * t, b3 * t;
    assert t * (u2 - b2 + t * (u3 - b3)) == t * (u2 + t * u3) - t * (b2 + t * b3);
    assert t * (u1 - b1 + t * (u2 - b2 + t * (u3 - b3))) == t * (u1 + t * (u2 + t * u3)) - t * (b1 + t * (b2 + t * b3));
  }

  lemma FirstDigit(t: nat, a: nat, b: nat, c: nat, d: nat, e: nat)
    requires e <= a
    ensures Four(t, a - e, b, c, d) == Four(t, a, b, c, d) - e
  {
  }

  /** `p` divides the difference of the sides, given the quotients of the square of
      `x`, of `x^2 + a` times `x`, and of the square of `y`. */
  ghost predicate EquationSteps(x: int, y: int, a: int, b: int, p: int, t: int, u: int, q1: int, q2: int, q3: int) {
    && x * x == q1 * p + t
    && (t + a) * x == q2 * p + (u - b)
    && y * y == q3 * p + u
  }

  lemma StepsIntro(x: int, y: int, a: int, b: int, p: int, t: int, u: int, q1: int, q2: int, q3: int)
    requires x * x == q1 * p + t && (t + a) * x == q2 * p + (u - b) && y * y == q3 * p + u
    ensures EquationSteps(x, y, a, b, p, t, u, q1, q2, q3)
  {
  }

  lemma EquationHolds(x: int, y: int, a: int, b: int, p: nat, t: int, u: int, q1: int, q2: int, q3: int)
    requires p > 0 && EquationSteps(x, y, a, b, p, t, u, q1, q2, q3)
    ensures Cong(y * y, x * x * x + a * x + b, p)
  {
    hide Cong;
    assert x * x * x == (q1 * p + t) * x;
    assert (q1 * p + t) * x == p * (q1 * x) + t * x;
    assert (t + a) * x == t * x + a * x;
    assert y * y - (x * x * x + a * x + b) == q3 * p - q2 * p - p * (q1 * x);
    assert p * (q3 - q2 - q1 * x) == q3 * p - q2 * p - p * (q1 * x);
    CongIntro(y * y, x * x * x + a * x + b, p, q3 - q2 - q1 * x);
  }

  lemma Secp256k1SquareX()
    ensures Four(TWO_64, 0x59F2815B16F81798, 0x29BFCDB2DCE28D9, 0x55A06295CE870B07, 0x79BE667EF9DCBBAC)
            * Four(TWO_64, 0x59F2815B16F81798, 0x29BFCDB2DCE28D9, 0x55A06295CE870B07, 0x79BE667EF9DCBBAC)
         == Four(TWO_64, 0xBABC9729E58090B9, 0x4204AC15A8C24E05, 0x4B75EC8C64650978, 0x39E58A8055B6FB26)
            * Four(TWO_64, 0xFFFFFFFEFFFFFC2F, 0xFFFFFFFFFFFFFFFF, 0xFFFFFFFFFFFFFFFF, 0xFFFFFFFFFFFFFFFF)
            + Digits(TWO_64, 0x38D50229B854FC49, 0xE3652194D06CB5BB, 0x6BA9ADCF0FB52A9D, 0x8550E7D238FCF308)
  {
    ProductIs(TWO_64, 0x59F2815B16F81798, 0x29BFCDB2DCE28D9, 0x55A06295CE870B07, 0x79BE667EF9DCBBAC,
              0x59F2815B16F81798, 0x29BFCDB2DCE28D9, 0x55A06295CE870B07, 0x79BE667EF9DCBBAC,
              0xBABC9729E58090B9, 0x4204AC15A8C24E05, 0x4B75EC8C64650978, 0x39E58A8055B6FB26,
              0xFFFFFFFEFFFFFC2F, 0xFFFFFFFFFFFFFFFF, 0xFFFFFFFFFFFFFFFF, 0xFFFFFFFFFFFFFFFF,
              0x38D50229B854FC49, 0xE3652194D06CB5BB, 0x6BA9ADCF0FB52A9D, 0x8550E7D238FCF308,
              -0x9B22137F03371BC3, -0xFAEBDBE1C7CFB95A, -0x10C04A27CEFBE1752, -0x12AD0D51D5C65D66C, -0xA840E6861BB71006, -0x33EA7B3806EBB6B6);
  }

  lemma Secp256k1CubeX()
    ensures Four(TWO_64, 0x38D50229B854FC49, 0xE3652194D06CB5BB, 0x6BA9ADCF0FB52A9D, 0x8550E7D238FCF308)
            * Four(TWO_64, 0x59F2815B16F81798, 0x29BFCDB2DCE28D9, 0x55A06295CE870B07, 0x79BE667EF9DCBBAC)
         == Four(TWO_64, 0xE2177AE0A2039723, 0x7384557BB62EADD8, 0xBAD8C9A43EFFC5DC, 0x3F6664FEC7445B86)
            * Four(TWO_64, 0xFFFFFFFEFFFFFC2F, 0xFFFFFFFFFFFFFFFF, 0xFFFFFFFFFFFFFFFF, 0xFFFFFFFFFFFFFFFF)
            + Digits(TWO_64, 0x44E4E9B8118C26EB, 0xF16F80A548E5E20A, 0x6BCC57CCD3735DA5, 0x4866D6A5AB41AB2C)
  {
    ProductIs(TWO_64, 0x38D50229B854FC49, 0xE3652194D06CB5BB, 0x6BA9ADCF0FB52A9D, 0x8550E7D238FCF308,
              0x59F2815B16F81798, 0x29BFCDB2DCE28D9, 0x55A06295CE870B07, 0x79BE667EF9DCBBAC,
              0xE2177AE0A2039723, 0x7384557BB62EADD8, 0xBAD8C9A43EFFC5DC, 0x3F6664FEC7445B86,
              0xFFFFFFFEFFFFFC2F, 0xFFFFFFFFFFFFFFFF, 0xFFFFFFFFFFFFFFFF, 0xFFFFFFFFFFFFFFFF,
              0x44E4E9B8118C26EB, 0xF16F80A548E5E20A, 0x6BCC57CCD3735DA5, 0x4866D6A5AB41AB2C,
              -0xCE1F970BA47E205A, -0x10521F40F910CB8AC, -0x1D54CF1F105AB2B0F, -0x1B8D4A9541057ACF1, -0xDC40EF73449D6F16, -0x9A748591799E7CE6);
  }

  lemma Secp256k1SquareY()
    ensures Four(TWO_64, 0x9C47D08FFB10D4B8, 0xFD17B448A6855419, 0x5DA4FBFC0E1108A8, 0x483ADA7726A3C465)
            * Four(TWO_64, 0x9C47D08FFB10D4B8, 0xFD17B448A6855419, 0x5DA4FBFC0E1108A8, 0x483ADA7726A3C465)
         == Four(TWO_64, 0x871BF154987E3E12, 0x70F6EC678FE75B56, 0xDF2D7D4BCA391B50, 0x1461286ABE28C5F1)
            * Four(TWO_64, 0xFFFFFFFEFFFFFC2F, 0xFFFFFFFFFFFFFFFF, 0xFFFFFFFFFFFFFFFF, 0xFFFFFFFFFFFFFFFF)
            + Digits(TWO_64, 0x44E4E9B8118C26F2, 0xF16F80A548E5E20A, 0x6BCC57CCD3735DA5, 0x4866D6A5AB41AB2C)
  {
    ProductIs(TWO_64, 0x9C47D08FFB10D4B8, 0xFD17B448A6855419, 0x5DA4FBFC0E1108A8, 0x483ADA7726A3C465,
              0x9C47D08FFB10D4B8, 0xFD17B448A6855419, 0x5DA4FBFC0E1108A8, 0x483ADA7726A3C465,
              0x871BF154987E3E12, 0x70F6EC678FE75B56, 0xDF2D7D4BCA391B50, 0x1461286ABE28C5F1,
              0xFFFFFFFEFFFFFC2F, 0xFFFFFFFFFFFFFFFF, 0xFFFFFFFFFFFFFFFF, 0xFFFFFFFFFFFFFFFF,
              0x44E4E9B8118C26F2, 0xF16F80A548E5E20A, 0x6BCC57CCD3735DA5, 0x4866D6A5AB41AB2C,
              -0x27B456FF3D9E3B2E, 0x3CF0058609AF6BFC, -0x6AB2E1492FDC004D, -0xDA47D140B0B4CE91, -0xB37294969D03F5D1, -0xBEB6C962697195CA);
  }

  lemma Secp256k1Generator()
    ensures Modulus(Secp256k1) > 0 && Cong(Val(Generator(Secp256k1).y) * Val(Generator(Secp256k1).y),
                 Val(Generator(Secp256k1).x) * Val(Generator(Secp256k1).x) * Val(Generator(Secp256k1).x)
                 + CoefficientA(Secp256k1) * Val(Generator(Secp256k1).x) + Val(CoefficientB(Secp256k1)), Modulus(Secp256k1))
  {
    FieldFacts(Secp256k1);
    hide Val, Cong, EquationSteps, Four, Digits;
    FourLimbs(SECP256K1_G.x);
    FourLimbs(SECP256K1_G.y);
    FourLimbs(SECP256K1_P);
    FourLimbs(SECP256K1_B);
    var x, y, b, p := Val(SECP256K1_G.x), Val(SECP256K1_G.y), Val(SECP256K1_B), Val(SECP256K1_P);
    var t, u := Four(TWO_64, 0x38D50229B854FC49, 0xE3652194D06CB5BB, 0x6BA9ADCF0FB52A9D, 0x8550E7D238FCF308), Four(TWO_64, 0x44E4E9B8118C26F2, 0xF16F80A548E5E20A, 0x6BCC57CCD3735DA5, 0x4866D6A5AB41AB2C);
    var q1, q2, q3 := Four(TWO_64, 0xBABC9729E58090B9, 0x4204AC15A8C24E05, 0x4B75EC8C64650978, 0x39E58A8055B6FB26), Four(TWO_64, 0xE2177AE0A2039723, 0x7384557BB62EADD8, 0xBAD8C9A43EFFC5DC, 0x3F6664FEC7445B86),
                      Four(TWO_64, 0x871BF154987E3E12, 0x70F6EC678FE75B56, 0xDF2D7D4BCA391B50, 0x1461286ABE28C5F1);
    assert EquationSteps(x, y, 0, b, p, t, u, q1, q2, q3) by {
      Secp256k1SquareX();
      Secp256k1CubeX();
      Secp256k1SquareY();
      DigitsMinus(TWO_64, 0x44E4E9B8118C26F2, 0xF16F80A548E5E20A, 0x6BCC57CCD3735DA5, 0x4866D6A5AB41AB2C, 0x7, 0x0, 0x0, 0x0);
      DigitsMinus(TWO_64, 0x38D50229B854FC49, 0xE3652194D06CB5BB, 0x6BA9ADCF0FB52A9D, 0x8550E7D238FCF308, 0, 0, 0, 0);
      FirstDigit(TWO_64, 0x38D50229B854FC49, 0xE3652194D06CB5BB, 0x6BA9ADCF0FB52A9D, 0x8550E7D238FCF308, 0x0);
      StepsIntro(x, y, 0, b, p, t, u, q1, q2, q3);
    }
    EquationHolds(x, y, 0, b, p, t, u, q1, q2, q3);
  }

  lemma Secp256r1SquareX()
    ensures Four(TWO_64, 0xF4A13945D898C296, 0x77037D812DEB33A0, 0xF8BCE6E563A440F2, 0x6B17D1F2E12C4247)
            * Four(TWO_64, 0xF4A13945D898C296, 0x77037D812DEB33A0, 0xF8BCE6E563A440F2, 0x6B17D1F2E12C4247)
         == Four(TWO_64, 0xCF3D110B7C638FA8, 0x901D0E9589FC7DBB, 0x42E032C9F9D26319, 0x2CCCEBB89ADADB2D)
            * Four(TWO_64, 0xFFFFFFFFFFFFFFFF, 0xFFFFFFFF, 0x0, 0xFFFFFFFF00000001)
            + Digits(TWO_64, 0x2AE56C426B3F8C, 0x33B699495D694DD1, 0x81819A5E0E3690D8, 0x98F6B84D29BEF2B2)
  {
    ProductIs(TWO_64, 0xF4A13945D898C296, 0x77037D812DEB33A0, 0xF8BCE6E563A440F2, 0x6B17D1F2E12C4247,
              0xF4A13945D898C296, 0x77037D812DEB33A0, 0xF8BCE6E563A440F2, 0x6B17D1F2E12C4247,
              0xCF3D110B7C638FA8, 0x901D0E9589FC7DBB, 0x42E032C9F9D26319, 0x2CCCEBB89ADADB2D,
              0xFFFFFFFFFFFFFFFF, 0xFFFFFFFF, 0x0, 0xFFFFFFFF00000001,
              0x2AE56C426B3F8C, 0x33B699495D694DD1, 0x81819A5E0E3690D8, 0x98F6B84D29BEF2B2,
              0x1A86A9AABF2A40EE, 0x5357804C41F3A86C, 0x1CFD570FB49566260, 0xB7E8B64EBE829B0A, 0xC5248CEB4C0994DD, 0x8D3C0027F34A2B7C);
  }

  lemma Secp256r1CubeX()
    ensures Four(TWO_64, 0x2AE56C426B3F89, 0x33B699495D694DD1, 0x81819A5E0E3690D8, 0x98F6B84D29BEF2B2)
            * Four(TWO_64, 0xF4A13945D898C296, 0x77037D812DEB33A0, 0xF8BCE6E563A440F2, 0x6B17D1F2E12C4247)
         == Four(TWO_64, 0x687EAC3779C8100, 0x73F51FEC695ACFAF, 0x3BF2EC3B463C2DC8, 0x3FFD5AA59B9B6C42)
            * Four(TWO_64, 0xFFFFFFFFFFFFFFFF, 0xFFFFFFFF, 0x0, 0xFFFFFFFF00000001)
            + Digits(TWO_64, 0x830EF0BDF9F18D46, -0x1B92768E2840FB16, -0x31D72C1BDF051CBE, -0x4E6D8805946183A)
  {
    ProductIs(TWO_64, 0x2AE56C426B3F89, 0x33B699495D694DD1, 0x81819A5E0E3690D8, 0x98F6B84D29BEF2B2,
              0xF4A13945D898C296, 0x77037D812DEB33A0, 0xF8BCE6E563A440F2, 0x6B17D1F2E12C4247,
              0x687EAC3779C8100, 0x73F51FEC695ACFAF, 0x3BF2EC3B463C2DC8, 0x3FFD5AA59B9B6C42,
              0xFFFFFFFFFFFFFFFF, 0xFFFFFFFF, 0x0, 0xFFFFFFFF00000001,
              0x830EF0BDF9F18D46, -0x1B92768E2840FB16, -0x31D72C1BDF051CBE, -0x4E6D8805946183A,
              -0x65EED14666F46DB, -0x4276932F4CCD3DE7, 0x58026E08653466DF, 0xBA2C3985134CDB06, 0x669EE50B036C659C, 0x8EDA2DD5A47C38E4);
  }

  lemma Secp256r1SquareY()
    ensures Four(TWO_64, 0xCBB6406837BF51F5, 0x2BCE33576B315ECE, 0x8EE7EB4A7C0F9E16, 0x4FE342E2FE1A7F9B)
            * Four(TWO_64, 0xCBB6406837BF51F5, 0x2BCE33576B315ECE, 0x8EE7EB4A7C0F9E16, 0x4FE342E2FE1A7F9B)
         == Four(TWO_64, 0xA7F051B975F0F918, 0x534834655163ED44, 0x65BD80DD843314DD, 0x18EE0D07E1CADF13)
            * Four(TWO_64, 0xFFFFFFFFFFFFFFFF, 0xFFFFFFFF, 0x0, 0xFFFFFFFF00000001)
            + Digits(TWO_64, 0xBEDD2CFC21C3ED91, 0x498A9022A412B5E0, 0x82149139979369FE, 0x55DF5D5850F47BAD)
  {
    ProductIs(TWO_64, 0xCBB6406837BF51F5, 0x2BCE33576B315ECE, 0x8EE7EB4A7C0F9E16, 0x4FE342E2FE1A7F9B,
              0xCBB6406837BF51F5, 0x2BCE33576B315ECE, 0x8EE7EB4A7C0F9E16, 0x4FE342E2FE1A7F9B,
              0xA7F051B975F0F918, 0x534834655163ED44, 0x65BD80DD843314DD, 0x18EE0D07E1CADF13,
              0xFFFFFFFFFFFFFFFF, 0xFFFFFFFF, 0x0, 0xFFFFFFFF00000001,
              0xBEDD2CFC21C3ED91, 0x498A9022A412B5E0, 0x82149139979369FE, 0x55DF5D5850F47BAD,
              -0x5D5C5D4892402C8, -0xD90CFBD90BE0803, 0x8530B34B307E98BF, -0x10D213BB9C4B4D27, 0x17D4F0FF05F7D239, -0xC8CA3ACDD4C48C6);
  }

  lemma Secp256r1Generator()
    ensures Modulus(Secp256r1) > 0 && Cong(Val(Generator(Secp256r1).y) * Val(Generator(Secp256r1).y),
                 Val(Generator(Secp256r1).x) * Val(Generator(Secp256r1).x) * Val(Generator(Secp256r1).x)
                 + CoefficientA(Secp256r1) * Val(Generator(Secp256r1).x) + Val(CoefficientB(Secp256r1)), Modulus(Secp256r1))
  {
    FieldFacts(Secp256r1);
    hide Val, Cong, EquationSteps, Four, Digits;
    FourLimbs(SECP256R1_G.x);
    FourLimbs(SECP256R1_G.y);
    FourLimbs(SECP256R1_P);
    FourLimbs(SECP256R1_B);
    var x, y, b, p := Val(SECP256R1_G.x), Val(SECP256R1_G.y), Val(SECP256R1_B), Val(SECP256R1_P);
    var t, u := Four(TWO_64, 0x2AE56C426B3F8C, 0x33B699495D694DD1, 0x81819A5E0E3690D8, 0x98F6B84D29BEF2B2), Four(TWO_64, 0xBEDD2CFC21C3ED91, 0x498A9022A412B5E0, 0x82149139979369FE, 0x55DF5D5850F47BAD);
    var q1, q2, q3 := Four(TWO_64, 0xCF3D110B7C638FA8, 0x901D0E9589FC7DBB, 0x42E032C9F9D26319, 0x2CCCEBB89ADADB2D), Four(TWO_64, 0x687EAC3779C8100, 0x73F51FEC695ACFAF, 0x3BF2EC3B463C2DC8, 0x3FFD5AA59B9B6C42),
                      Four(TWO_64, 0xA7F051B975F0F918, 0x534834655163ED44, 0x65BD80DD843314DD, 0x18EE0D07E1CADF13);
    assert EquationSteps(x, y, -3, b, p, t, u, q1, q2, q3) by {
      Secp256r1SquareX();
      Secp256r1CubeX();
      Secp256r1SquareY();
      DigitsMinus(TWO_64, 0xBEDD2CFC21C3ED91, 0x498A9022A412B5E0, 0x82149139979369FE, 0x55DF5D5850F47BAD, 0x3BCE3C3E27D2604B, 0x651D06B0CC53B0F6, 0xB3EBBD55769886BC, 0x5AC635D8AA3A93E7);
      DigitsMinus(TWO_64, 0x2AE56C426B3F8C, 0x33B699495D694DD1, 0x81819A5E0E3690D8, 0x98F6B84D29BEF2B2, 0, 0, 0, 0);
      FirstDigit(TWO_64, 0x2AE56C426B3F8C, 0x33B699495D694DD1, 0x81819A5E0E3690D8, 0x98F6B84D29BEF2B2, 0x3);
      StepsIntro(x, y, -3, b, p, t, u, q1, q2, q3);
    }
    EquationHolds(x, y, -3, b, p, t, u, q1, q2, q3);
  }

  /** The generator satisfies the equation of its curve. */
  lemma GeneratorOnCurve(id: CurveId)
    ensures var x, y := Val(Generator(id).x), Val(Generator(id).y);
            Modulus(id) > 0 && Cong(y * y, x * x * x + CoefficientA(id) * x + Val(CoefficientB(id)), Modulus(id))
  {
    hide Val, Cong;
    if id == Secp256k1 {
      Secp256k1Generator();
    } else {
      Secp256r1Generator();
    }
  }
}
