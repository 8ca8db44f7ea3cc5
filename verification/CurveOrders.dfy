/** The orders of the two curve groups, and the remainder each leaves of `2^512`. */
module CurveOrders {
  import opened Felts
  import opened Limbs

  const SECP256K1_N: seq<Felt> := [0xBFD25E8CD0364141, 0xBAAEDCE6AF48A03B, 0xFFFFFFFFFFFFFFFE, 0xFFFFFFFFFFFFFFFF]
  const SECP256R1_N: seq<Felt> := [0xF3B9CAC2FC632551, 0xBCE6FAADA7179E84, 0xFFFFFFFFFFFFFFFF, 0xFFFFFFFF00000000]

  predicate CurveOrder(n: seq<Felt>) {
    n == SECP256K1_N || n == SECP256R1_N
  }

  // ── Four digits ──────────────────────────────────────────────────────────

  /** The number with four digits in base `t`. */
  function Four(t: nat, a: nat, b: nat, c: nat, d: nat): nat {
    a + t * (b + t * (c + t * d))
  }

  /** Four places up. */
  function Raised(t: nat, x: nat): nat {
    t * (t * (t * (t * x)))
  }

  lemma ScaledFour(t: nat, x: nat, a: nat, b: nat, c: nat, d: nat)
    ensures x * Four(t, a, b, c, d) == Four(t, x * a, x * b, x * c, x * d)
  {
    assert x * (c + t * d) == x * c + t * (x * d);
    assert x * (b + t * (c + t * d)) == x * b + t * (x * (c + t * d));
    assert x * (a + t * (b + t * (c + t * d))) == x * a + t * (x * (b + t * (c + t * d)));
  }

  /** Adding a number one place up; its last digit may be what follows. */
  lemma AddShifted(t: nat, a: nat, b: nat, c: nat, d: nat, p: nat, q: nat, r: nat, rest: nat)
    ensures Four(t, a, b, c, d) + t * Four(t, p, q, r, rest) == a + t * Four(t, b + p, c + q, d + r, rest)
  {
    var u, v, w := c + t * d, q + t * (r + t * rest), r + t * rest;
    assert t * d + t * w == t * (d + w);
    assert t * u + t * v == t * (u + v);
    assert t * (b + t * u) + t * (p + t * v) == t * (b + p + (t * u + t * v));
  }

  /** One row of the schoolbook product on top of the rows above it. */
  lemma AddProduct(t: nat, x: nat, a: nat, b: nat, c: nat, d: nat, p: nat, q: nat, r: nat, rest: nat)
    ensures x * Four(t, a, b, c, d) + t * Four(t, p, q, r, rest) == x * a + t * Four(t, x * b + p, x * c + q, x * d + r, rest)
  {
    hide Four;
    ScaledFour(t, x, a, b, c, d);
    AddShifted(t, x * a, x * b, x * c, x * d, p, q, r, rest);
  }

  /** The schoolbook product, column by column. */
  lemma FourTimesFour(t: nat, a0: nat, a1: nat, a2: nat, a3: nat, b0: nat, b1: nat, b2: nat, b3: nat)
    ensures Four(t, a0, a1, a2, a3) * Four(t, b0, b1, b2, b3) ==
      a0 * b0 + t * Four(t, a0 * b1 + a1 * b0, a0 * b2 + (a1 * b1 + a2 * b0), a0 * b3 + (a1 * b2 + (a2 * b1 + a3 * b0)),
                         a1 * b3 + (a2 * b2 + a3 * b1) + t * (a2 * b3 + a3 * b2 + t * (a3 * b3)))
  {
    var b := Four(t, b0, b1, b2, b3);
    var three := a3 * b;
    var two := a2 * b + t * three;
    var one := a1 * b + t * two;
    ScaledFour(t, a3, b0, b1, b2, b3);
    AddProduct(t, a2, b0, b1, b2, b3, a3 * b0, a3 * b1, a3 * b2, a3 * b3);
    var tail := a2 * b3 + a3 * b2 + t * (a3 * b3);
    AddProduct(t, a1, b0, b1, b2, b3, a2 * b0, a2 * b1 + a3 * b0, a2 * b2 + a3 * b1, tail);
    AddProduct(t, a0, b0, b1, b2, b3, a1 * b0, a1 * b1 + a2 * b0, a1 * b2 + (a2 * b1 + a3 * b0), a1 * b3 + (a2 * b2 + a3 * b1) + t * tail);
    assert Four(t, a0, a1, a2, a3) * b == a0 * b + t * one by {
      hide Four;
      Distributed(t, a0, a1, a2, a3, b);
    }
  }

  lemma Distributed(t: nat, a0: nat, a1: nat, a2: nat, a3: nat, b: nat)
    ensures Four(t, a0, a1, a2, a3) * b == a0 * b + t * (a1 * b + t * (a2 * b + t * (a3 * b)))
  {
    ScaledFour(t, b, a0, a1, a2, a3);
  }

  /** A product plus a remainder whose low four columns carry away entirely. */
  lemma CarriedProduct(t: nat, a0: nat, a1: nat, a2: nat, a3: nat, n0: nat, n1: nat, n2: nat, n3: nat,
                       e0: nat, e1: nat, e2: nat, e3: nat, d0: nat, d1: nat, d2: nat, d3: nat,
                       c1: nat, c2: nat, c3: nat, c4: nat, c5: nat, c6: nat)
    requires a0 * n0 + e0 == t * c1
    requires a0 * n1 + a1 * n0 + e1 + c1 == t * c2
    requires a0 * n2 + (a1 * n1 + a2 * n0) + e2 + c2 == t * c3
    requires a0 * n3 + (a1 * n2 + (a2 * n1 + a3 * n0)) + e3 + c3 == t * c4
    requires a1 * n3 + (a2 * n2 + a3 * n1) + c4 == d0 + t * c5
    requires a2 * n3 + a3 * n2 + c5 == d1 + t * c6
    requires a3 * n3 + c6 == d2 + t * d3
    ensures Four(t, a0, a1, a2, a3) * Four(t, n0, n1, n2, n3) + Four(t, e0, e1, e2, e3) == Raised(t, Four(t, d0, d1, d2, d3))
  {
    hide *;
    var x1, x2, x3 := a0 * n1 + a1 * n0, a0 * n2 + (a1 * n1 + a2 * n0), a0 * n3 + (a1 * n2 + (a2 * n1 + a3 * n0));
    var x4, x5, x6 := a1 * n3 + (a2 * n2 + a3 * n1), a2 * n3 + a3 * n2, a3 * n3;
    FourTimesFour(t, a0, a1, a2, a3, n0, n1, n2, n3);
    Columns(t, a0 * n0, x1, x2, x3, x4 + t * (x5 + t * x6), e0, e1, e2, e3, c1, c2, c3, c4, Four(t, d0, d1, d2, d3)) by {
      HighColumns(t, x4, x5, x6, c4, c5, c6, d0, d1, d2, d3);
    }
  }

  lemma Columns(t: nat, x0: nat, x1: nat, x2: nat, x3: nat, y4: nat, e0: nat, e1: nat, e2: nat, e3: nat,
                c1: nat, c2: nat, c3: nat, c4: nat, d: nat)
    requires x0 + e0 == t * c1 && x1 + e1 + c1 == t * c2 && x2 + e2 + c2 == t * c3 && x3 + e3 + c3 == t * c4 && y4 + c4 == d
    ensures x0 + t * Four(t, x1, x2, x3, y4) + Four(t, e0, e1, e2, e3) == Raised(t, d)
  {
    hide *;
    PairwiseSum(t, x0, x1, x2, x3, y4, e0, e1, e2, e3);
    LowColumns(t, x0 + e0, x1 + e1, x2 + e2, x3 + e3, y4, c1, c2, c3, c4, d);
  }

  lemma LowColumns(t: nat, s0: nat, s1: nat, s2: nat, s3: nat, rest: nat, c1: nat, c2: nat, c3: nat, c4: nat, d: nat)
    requires s0 == t * c1 && s1 + c1 == t * c2 && s2 + c2 == t * c3 && s3 + c3 == t * c4 && rest + c4 == d
    ensures s0 + t * Four(t, s1, s2, s3, rest) == Raised(t, d)
  {
    CarryZero(t, s3, c3, c4, rest, d);
    var y3 := s3 + t * rest;
    CarryZero(t, s2, c2, c3, y3, t * d);
    var y2 := s2 + t * y3;
    CarryZero(t, s1, c1, c2, y2, t * (t * d));
    CarryZero(t, s0, 0, c1, s1 + t * y2, t * (t * (t * d)));
  }

  lemma HighColumns(t: nat, x4: nat, x5: nat, x6: nat, c4: nat, c5: nat, c6: nat, d0: nat, d1: nat, d2: nat, d3: nat)
    requires x4 + c4 == d0 + t * c5 && x5 + c5 == d1 + t * c6 && x6 + c6 == d2 + t * d3
    ensures x4 + t * (x5 + t * x6) + c4 == Four(t, d0, d1, d2, d3)
  {
    var y5 := x5 + t * x6;
    CarryDigit(t, x5 + c5, d1, c6, x6);
    assert y5 + c5 == d1 + t * (d2 + t * d3);
    CarryDigit(t, x4 + c4, d0, c5, y5);
  }

  /** A column that carries away entirely. */
  lemma CarryZero(t: nat, x: nat, carryIn: nat, carry: nat, rest: nat, whole: nat)
    requires x + carryIn == t * carry && rest + carry == whole
    ensures x + t * rest + carryIn == t * whole
  {
  }

  lemma CarryDigit(t: nat, sum: nat, digit: nat, carry: nat, rest: nat)
    requires sum == digit + t * carry
    ensures sum + t * rest == digit + t * (rest + carry)
  {
  }

  lemma PairwiseSum(t: nat, x0: nat, x1: nat, x2: nat, x3: nat, y4: nat, e0: nat, e1: nat, e2: nat, e3: nat)
    ensures x0 + t * Four(t, x1, x2, x3, y4) + Four(t, e0, e1, e2, e3)
         == x0 + e0 + t * Four(t, x1 + e1, x2 + e2, x3 + e3, y4)
  {
    var u := x3 + t * y4;
    assert t * u + t * e3 == t * (u + e3);
    assert t * (x2 + t * u) + t * (e2 + t * e3) == t * (x2 + e2 + t * (u + e3));
    assert t * (x1 + t * (x2 + t * u)) + t * (e1 + t * (e2 + t * e3)) == t * (x1 + e1 + t * (x2 + e2 + t * (u + e3)));
  }

  // ── The two orders ───────────────────────────────────────────────────────

  lemma FourLimbs(n: seq<nat>)
    requires |n| == LIMBS
    ensures Val(n) == Four(TWO_64, n[0], n[1], n[2], n[3])
  {
    assert n[1..][1..] == n[2..] && n[2..][1..] == n[3..] && n[3..][1..] == [];
    assert Val(n[3..]) == n[3];
    assert Val(n[2..]) == n[2] + TWO_64 * Val(n[3..]);
    assert Val(n[1..]) == n[1] + TWO_64 * Val(n[2..]);
  }

  lemma TimesWeight(n: seq<nat>, x: nat)
    requires |n| == LIMBS
    ensures Weight(|n|) * x == Raised(TWO_64, x)
  {
    Weights();
  }

  /** The order lies `d` below `2^256`, and `2^512` leaves the remainder `e`, with
      room for `d` between `e` and the order. */
  ghost predicate RemainderOf(n: seq<Felt>, d: nat, k: nat, e: nat) {
    && IsLimbs(n, LIMBS)
    && Val(n) + d == Weight(|n|) && e < Val(n) && e + d <= Val(n)
    && k * Val(n) + e == Weight(|n|) * d
  }

  lemma Secp256k1Remainder() returns (d: nat, k: nat, e: nat)
    ensures RemainderOf(SECP256K1_N, d, k, e)
  {
    d, k, e := Four(TWO_64, 0x402DA1732FC9BEBF, 0x4551231950B75FC4, 0x1, 0x0), Four(TWO_64, 0x402DA1732FC9BEC0, 0x4551231950B75FC4, 0x1, 0x0),
               Four(TWO_64, 0x896CF21467D7D140, 0x741496C20E7CF878, 0xE697F5E45BCD07C6, 0x9D671CD581C69BC5);
    FourLimbs(SECP256K1_N);
    TimesWeight(SECP256K1_N, d);
    CarriedProduct(TWO_64, 0x402DA1732FC9BEC0, 0x4551231950B75FC4, 0x1, 0x0,
                   0xBFD25E8CD0364141, 0xBAAEDCE6AF48A03B, 0xFFFFFFFFFFFFFFFE, 0xFFFFFFFFFFFFFFFF,
                   0x896CF21467D7D140, 0x741496C20E7CF878, 0xE697F5E45BCD07C6, 0x9D671CD581C69BC5,
                   0x402DA1732FC9BEBF, 0x4551231950B75FC4, 0x1, 0x0,
                   0x3016C8976F93FC84, 0x62BD7D0B1252A24D, 0x72B9EDE9A0294248, 0x857EC48C80811E85, 0x4551231950B75FC5, 0x1);
  }

  lemma Secp256r1Remainder() returns (d: nat, k: nat, e: nat)
    ensures RemainderOf(SECP256R1_N, d, k, e)
  {
    d, k, e := Four(TWO_64, 0xC46353D039CDAAF, 0x4319055258E8617B, 0x0, 0xFFFFFFFF), Four(TWO_64, 0x12FFD85EEDF9BFE, 0x43190552DF1A6C21, 0xFFFFFFFEFFFFFFFF, 0xFFFFFFFF),
               Four(TWO_64, 0x83244C95BE79EEA2, 0x4699799C49BD6FA6, 0x2845B2392B6BEC59, 0x66E12D94F3D95620);
    FourLimbs(SECP256R1_N);
    TimesWeight(SECP256R1_N, d);
    CarriedProduct(TWO_64, 0x12FFD85EEDF9BFE, 0x43190552DF1A6C21, 0xFFFFFFFEFFFFFFFF, 0xFFFFFFFF,
                   0xF3B9CAC2FC632551, 0xBCE6FAADA7179E84, 0xFFFFFFFFFFFFFFFF, 0xFFFFFFFF00000000,
                   0x83244C95BE79EEA2, 0x4699799C49BD6FA6, 0x2845B2392B6BEC59, 0x66E12D94F3D95620,
                   0xC46353D039CDAAF, 0x4319055258E8617B, 0x0, 0xFFFFFFFF,
                   0x1216A451D1D61F1, 0x40C1C2BD2983B5F2, 0x1266CB25F8EBBD9D6, 0x1012FFD86AAB47932, 0x14319055258E8617A, 0xFFFFFFFF00000000);
  }

  lemma OrderRemainder(n: seq<Felt>) returns (d: nat, k: nat, e: nat)
    requires CurveOrder(n)
    ensures RemainderOf(n, d, k, e)
  {
    hide RemainderOf;
    if n == SECP256K1_N {
      d, k, e := Secp256k1Remainder();
    } else {
      d, k, e := Secp256r1Remainder();
    }
  }
}
