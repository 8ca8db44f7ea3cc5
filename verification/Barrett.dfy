/** Multiplication modulo a 256-bit number (`modular.rs`): simplified Barrett
    reduction with two conditional subtractions, and modular sums. */
module Barrett {
  import opened Felts
  import opened Limbs
  import opened PowersOfTwo
  import opened Solinas
  import opened CurveOrders

  // The powers of two stay symbolic here: `Weight(LIMBS)` is `2^256`.

  // ── The quotient estimate ────────────────────────────────────────────────

  /** The moduli two corrections are enough for: at least 0.618034 of `2^256`,
      the golden ratio being where the estimate gets too low. */
  predicate BarrettModulus(n: seq<nat>) {
    1_000_000 * Weight(|n|) <= 1_618_033 * Val(n) && Val(n) < Weight(|n|)
  }

  /** The condition itself, for any `w`. */
  predicate LargeModulus(w: nat, n: nat) {
    0 < n < w && n * n + n * w >= w * w
  }

  /** Every modulus from three quarters of `2^256` up is one of them. */
  lemma ThreeQuarters(n: seq<nat>)
    requires 3 * Weight(|n|) <= 4 * Val(n) && Val(n) < Weight(|n|)
    ensures BarrettModulus(n)
  {
    hide Weight, Val;
  }

  lemma ModulusIsLarge(w: nat, n: nat)
    requires 0 < w && 1_000_000 * w <= 1_618_033 * n && n < w
    ensures LargeModulus(w, n)
  {
    var k, a := 1_618_033, 1_000_000;
    MulMono(a * w, k * n, k * n);
    MulMono(a * w, k * n, w);
    assert (a * w) * (k * n) <= (k * n) * (k * n);
    assert (a * w) * w <= (k * n) * w;
    assert (a * w) * (k * n) == (a * k) * (n * w) && (k * n) * (k * n) == (k * k) * (n * n);
    assert (a * w) * w == a * (w * w) && (k * n) * w == k * (n * w);
  }

  /** The moduli for which one factor may be any number below `w`: the remainder
      of `w^2` leaves enough room. */
  predicate Slack(w: nat, n: nat) {
    0 < n < w && w * w + (w * w % n) * n <= 2 * (n * w)
  }

  /** The products the estimate is good enough for. */
  predicate Covers(w: nat, n: nat, x: nat) {
    x < n * n || (Slack(w, n) && x < w * n)
  }

  lemma SlackFrom(w: nat, n: nat, d: nat, k: nat, e: nat)
    requires n > 0 && d > 0 && n + d == w && e < n && e + d <= n && k * n + e == w * d
    ensures Slack(w, n)
  {
    assert w * w == w * n + w * d;
    assert n * (w + k) == w * n + k * n;
    DivModUnique(w * w, n, w + k, e);
    RoomFor(n, d, e);
    assert w * d == n * d + d * d && n * w == n * n + n * d;
  }

  lemma RoomFor(n: nat, d: nat, e: nat)
    requires e + d <= n
    ensures d * d + e * n <= n * n
  {
    MulMono(d, n, d);
    MulMono(e + d, n, n);
    assert (e + d) * n == e * n + d * n;
  }

  /** A modulus of full width. At `2^255` itself the constant does not fit. */
  predicate FullWidth(n: seq<nat>) {
    Weight(|n|) < 2 * Val(n) && Val(n) < Weight(|n|)
  }

  lemma LargeIsFullWidth(n: seq<nat>)
    requires BarrettModulus(n)
    ensures FullWidth(n)
  {
    hide Weight, Val;
  }

  /** The operands two corrections are known to be enough for: reduced ones and a
      large modulus; and for a curve order, any whose quotient fits four limbs. */
  predicate Estimable(n: seq<Felt>, a: nat, b: nat) {
    || (BarrettModulus(n) && a < Val(n) && b < Val(n))
    || (CurveOrder(n) && a * b < Weight(|n|) * Val(n))
  }

  /** The remainder left by the estimated quotient, exactly. */
  lemma Remainder(w: nat, n: nat, mu: nat, e: nat, x: nat, ph: nat, xl: nat, q: nat, f: nat)
    requires mu * n + e == w * w && x == w * ph + xl && w * q + f == ph * mu
    ensures w * (x - q * n) == ph * e + w * xl + n * f
  {
    calc {
      w * (x - q * n);
      w * x - w * (q * n);
      { assert w * (q * n) == n * (w * q); }
      w * x - n * (w * q);
      w * x - n * (ph * mu - f);
      { assert n * (ph * mu - f) == n * (ph * mu) - n * f; assert n * (ph * mu) == ph * (mu * n); }
      w * x - ph * (mu * n) + n * f;
      { assert w * x == w * (w * ph) + w * xl; assert w * (w * ph) == ph * (w * w); }
      ph * (w * w) + w * xl - ph * (mu * n) + n * f;
      { assert ph * (w * w) - ph * (mu * n) == ph * (w * w - mu * n); }
      ph * e + w * xl + n * f;
    }
  }

  /** `w^3 + n^3 <= 2 n w^2` follows from the condition on the modulus. */
  lemma Cubes(w: nat, n: nat)
    requires n <= w && n * n + n * w >= w * w
    ensures w * (w * w) + n * (n * n) <= 2 * (n * (w * w))
  {
    var a := w - n;
    var b := n * n + n * w - w * w;
    assert a * b >= 0;
    calc {
      a * b;
      w * b - n * b;
      { assert w * b == w * (n * n) + w * (n * w) - w * (w * w); assert n * b == n * (n * n) + n * (n * w) - n * (w * w); }
      w * (n * n) + w * (n * w) - w * (w * w) - n * (n * n) - n * (n * w) + n * (w * w);
      { assert w * (n * n) == n * (n * w); assert w * (n * w) == n * (w * w); }
      2 * (n * (w * w)) - w * (w * w) - n * (n * n);
    }
  }

  lemma CancelLess(w: nat, a: int, b: int)
    requires w > 0 && w * a < w * b
    ensures a < b
  {
    if a >= b {
      MulMono2(w, b, a);
    }
  }

  lemma FirstTerm(w: nat, n: nat, x: nat, ph: nat, e: nat)
    requires w * ph <= x < n * n && e < n
    ensures w * (ph * e) <= n * (n * n)
  {
    MulMono(w * ph, n * n, e);
    MulMono2(n * n, e, n);
    assert w * (ph * e) == (w * ph) * e && (n * n) * n == n * (n * n);
  }

  lemma SecondTerm(w: nat, xl: nat)
    requires xl < w
    ensures w * (w * xl) <= w * (w * w) - w * w
  {
    MulMono2(w * w, xl, w - 1);
    assert (w * w) * (w - 1) == w * (w * w) - w * w;
    assert w * (w * xl) == (w * w) * xl;
  }

  lemma ThirdTerm(w: nat, n: nat, f: nat)
    requires f < w
    ensures w * (n * f) <= n * (w * w)
  {
    MulMono2(n * w, f, w);
    assert w * (n * f) == (n * w) * f && (n * w) * w == n * (w * w);
  }

  lemma NonNegativeSum(a: nat, b: nat, c: nat, d: nat, e: nat, f: nat)
    ensures a * b + c * d + e * f >= 0
  {
    NonNegative(a, b);
    NonNegative(c, d);
    NonNegative(e, f);
  }

  lemma NonNegative(a: nat, b: nat)
    ensures a * b >= 0
  {
  }

  lemma Distribute3(w: int, a: int, b: int, c: int)
    ensures w * (a + b + c) == w * a + w * b + w * c
  {
  }

  /** The estimate is never too large and at most 2 too small. */
  lemma BarrettBound(w: nat, n: nat, mu: nat, e: nat, x: nat, ph: nat, xl: nat, q: nat, f: nat)
    requires 0 < n <= w && n * n + n * w >= w * w
    requires mu * n + e == w * w && e < n
    requires x == w * ph + xl && xl < w && x < n * n
    requires w * q + f == ph * mu && f < w
    ensures 0 <= x - q * n < 3 * n
  {
    Remainder(w, n, mu, e, x, ph, xl, q, f);
    FirstTerm(w, n, x, ph, e);
    SecondTerm(w, xl);
    ThirdTerm(w, n, f);
    Cubes(w, n);
    Distribute3(w, ph * e, w * xl, n * f);
    NonNegativeSum(ph, e, w, xl, n, f);
    RemainderRange(w, n, x - q * n, ph * e + w * xl + n * f);
  }

  /** For any modulus of full width it is at most 3 too small. */
  lemma FullWidthBound(w: nat, n: nat, mu: nat, e: nat, x: nat, ph: nat, xl: nat, q: nat, f: nat)
    requires 0 < n <= w < 2 * n
    requires mu * n + e == w * w && e < n
    requires x == w * ph + xl && xl < w && x < n * n
    requires w * q + f == ph * mu && f < w
    ensures 0 <= x - q * n < 4 * n
  {
    Remainder(w, n, mu, e, x, ph, xl, q, f);
    FirstTerm(w, n, x, ph, e);
    SecondTerm(w, xl);
    ThirdTerm(w, n, f);
    FullWidthCubes(w, n);
    Distribute3(w, ph * e, w * xl, n * f);
    NonNegativeSum(ph, e, w, xl, n, f);
    FullWidthRange(w, n, x - q * n, ph * e + w * xl + n * f);
  }

  lemma FullWidthCubes(w: nat, n: nat)
    requires n <= w < 2 * n
    ensures w * (w * w) + n * (n * n) <= 3 * (n * (w * w))
  {
    MulMono(n, w, n);
    MulMono(n, w, w);
    assert n * w == w * n;
    MulMono2(n, n * n, w * w);
    MulMono(w, 2 * n, w * w);
    assert (2 * n) * (w * w) == 2 * (n * (w * w));
  }

  lemma FullWidthRange(w: nat, n: nat, d: int, s: int)
    requires w > 0 && w * d == s && 0 <= s
    requires w * s <= 4 * (n * (w * w)) - w * w
    ensures 0 <= d < 4 * n
  {
    if d < 0 {
      MulMono2(w, d, -1);
    }
    assert w * (w * d) == (w * w) * d;
    assert w * w > 0;
    assert 4 * (n * (w * w)) == (w * w) * (4 * n);
    CancelLess(w * w, d, 4 * n);
  }

  /** The same for products below `w n`. */
  lemma SlackBound(w: nat, n: nat, mu: nat, e: nat, x: nat, ph: nat, xl: nat, q: nat, f: nat)
    requires 0 < n < w && w * w + e * n <= 2 * (n * w)
    requires mu * n + e == w * w && e < n
    requires x == w * ph + xl && xl < w && x < w * n
    requires w * q + f == ph * mu && f < w
    ensures 0 <= x - q * n < 3 * n
  {
    HighHalfBelow(w, n, ph, xl);
    SlackLimit(w, n, e, ph, xl, f);
    Remainder(w, n, mu, e, x, ph, xl, q, f);
    SlackRange(w, n, x - q * n, ph * e + w * xl + n * f);
  }

  lemma SlackLimit(w: nat, n: nat, e: nat, ph: nat, xl: nat, f: nat)
    requires 0 < n < w && w * w + e * n <= 2 * (n * w) && ph < n && xl < w && f < w
    ensures 0 <= ph * e + w * xl + n * f < 3 * (n * w)
  {
    NonNegativeSum(ph, e, w, xl, n, f);
    SlackTerms(w, n, e, ph, xl, f);
    SlackSum(w * w, e * n, n * w, ph * e, w * xl, n * f, w, n);
  }

  lemma HighHalfBelow(w: nat, n: nat, ph: nat, xl: nat)
    requires w > 0 && w * ph + xl < w * n
    ensures ph < n
  {
    CancelLess(w, ph, n);
  }

  lemma SlackSum(ww: int, en: int, nw: int, a: int, b: int, c: int, w: nat, n: nat)
    requires ww + en <= 2 * nw && 0 < n && 0 < w
    requires a <= en && b <= ww - w && c <= nw - n
    ensures a + b + c < 3 * nw
  {
  }

  lemma SlackTerms(w: nat, n: nat, e: nat, ph: nat, xl: nat, f: nat)
    requires ph < n && xl < w && f < w
    ensures ph * e <= e * n && w * xl <= w * w - w && n * f <= n * w - n
  {
    MulMono(ph, n, e);
    MulMono2(w, xl, w - 1);
    assert w * (w - 1) == w * w - w;
    MulMono2(n, f, w - 1);
    assert n * (w - 1) == n * w - n;
  }

  lemma SlackRange(w: nat, n: nat, d: int, s: int)
    requires w > 0 && n > 0 && w * d == s && 0 <= s < 3 * (n * w)
    ensures 0 <= d < 3 * n
  {
    assert w * (3 * n) == 3 * (n * w);
    CancelLess(w, d, 3 * n);
    if d < 0 {
      MulMono2(w, d, -1);
    }
  }

  lemma RemainderRange(w: nat, n: nat, d: int, s: int)
    requires w > 0 && w * d == s && 0 <= s
    requires w * s <= 3 * (n * (w * w)) - w * w
    ensures 0 <= d < 3 * n
  {
    if d < 0 {
      MulMono2(w, d, -1);
    }
    assert w * (w * d) == (w * w) * d;
    assert w * w > 0;
    assert 3 * (n * (w * w)) == (w * w) * (3 * n);
    CancelLess(w * w, d, 3 * n);
  }

  // ── The constant ─────────────────────────────────────────────────────────

  /** `floor(w^2 / n) - w`, where `w` is `2^256`. */
  function MuLow(w: nat, n: nat): int
    requires n > 0
  {
    w * w / n - w
  }

  lemma MuLowRange(w: nat, n: nat)
    requires n < w < 2 * n
    ensures 0 <= MuLow(w, n) < w
  {
    QuotientRange(w, n);
  }

  lemma QuotientRange(w: nat, n: nat)
    requires n < w < 2 * n
    ensures w <= w * w / n < 2 * w
  {
    var mu := w * w / n;
    QuotientSmall(w * w, n);
    if mu < w {
      ShortQuotient(w, n, mu);
    }
    if mu >= 2 * w {
      LongQuotient(w, n, mu);
    }
  }

  lemma LongQuotient(w: nat, n: nat, mu: nat)
    requires w < 2 * n && mu >= 2 * w && w > 0
    ensures n * mu > w * w
  {
    MulMono2(n, 2 * w, mu);
    assert n * (2 * w) == (2 * n) * w;
    MulMono(w + 1, 2 * n, w);
  }

  lemma ShortQuotient(w: nat, n: nat, mu: nat)
    requires mu < w && n < w
    ensures n * mu + n < w * w
  {
    MulMono2(n, mu, w - 1);
    assert n * (w - 1) == n * w - n;
    MulMono(n, w - 1, w);
    assert (w - 1) * w == w * w - w;
  }

  lemma MuLowNonNegative(w: nat, n: nat)
    requires 0 < n < w
    ensures 0 <= MuLow(w, n)
  {
    QuotientSmall(w * w, n);
    if w * w / n < w {
      ShortQuotient(w, n, w * w / n);
    }
  }

  /** `barrett_mu_low`: the low four limbs of the constant, by shifts and masks. */
  method BarrettMuLow(n: seq<Felt>) returns (limbs: seq<Felt>)
    requires IsLimbs(n, LIMBS) && Val(n) > 0
    ensures IsLimbs(limbs, LIMBS) && Val(limbs) == MuLow(Weight(|n|), Val(n)) % Weight(|n|)
  {
    hide Val, Weight, MuLow;
    ValBound(n);
    MuLowNonNegative(Weight(|n|), Val(n));
    var muLow: nat := MuLow(Weight(|n|), Val(n));
    limbs := seq(LIMBS, _ => 0);
    ValStart(limbs, muLow);
    WeightZero();
    for i := 0 to LIMBS
      invariant |limbs| == LIMBS
      invariant forall j :: 0 <= j < i ==> limbs[j] < TWO_64
      invariant Val(limbs[..i]) + Weight(i) * (muLow / Weight(i)) == muLow
    {
      var limb: nat := (muLow / Weight(i)) % TWO_64;
      StoreDigit(limbs, i, limb);
      ShiftStep(muLow, Weight(i), TWO_64);
      CarryStep(Weight(i), 0, limb, muLow / Weight(i + 1), muLow / Weight(i), 0);
      limbs := limbs[i := limb];
    }
    Whole(limbs);
    ValBound(limbs);
    DivModUnique(muLow, Weight(LIMBS), muLow / Weight(LIMBS), Val(limbs));
  }

  // ── Conditional subtraction ──────────────────────────────────────────────

  /** `r >= n ? r - n : r` on 5 limbs. */
  method ConditionalSubN5(r: seq<Felt>, n: seq<Felt>) returns (result: seq<Felt>)
    requires IsLimbs(r, LIMBS + 1) && IsLimbs(n, LIMBS)
    ensures IsLimbs(result, LIMBS + 1)
    ensures Val(result) == if Val(r) >= Val(n) then Val(r) - Val(n) else Val(r)
  {
    hide Val, Weight, Add, Mul, Neg;
    var r4IsZero: Felt := if r[4] == 0 then 1 else 0;
    var r4IsNonzero := NotBitOf(r4IsZero);
    var rLow := r[..LIMBS];
    var rLowLtN := LtBool(rLow, n);
    var rLowGeN := NotBitOf(rLowLtN);
    var needSub := OrOf(r4IsNonzero, rLowGeN);
    var subLow, borrow := SubWithBorrow(rLow, n, 0);
    var subHigh := Add(r[4], Neg(borrow));
    var lowResult := SelectLimbs(needSub, subLow, rLow);
    var highResult := Add(Mul(needSub, subHigh), Mul(Add(1, Neg(needSub)), r[4]));
    SelectDigit(needSub, subHigh, r[4]);
    FiveLimbs(rLow, r[4]);
    assert r == rLow + [r[4]];
    FiveLimbs(subLow, subHigh);
    ValBound(subLow);
    ValBound(rLow);
    ValBound(n);
    TopDecides(Weight(LIMBS), r[4], borrow);
    if needSub == 1 {
      SubExact(r[4], borrow);
      assert Weight(LIMBS) * (r[4] - borrow) == Weight(LIMBS) * r[4] - Weight(LIMBS) * borrow;
    }
    result := lowResult + [highResult];
  }

  lemma TopDecides(w: nat, top: nat, borrow: nat)
    requires w > 0
    ensures top > 0 ==> w * top >= w
    ensures borrow == 1 ==> w * borrow == w
    ensures top == 0 ==> w * top == 0
    ensures borrow == 0 ==> w * borrow == 0
  {
    if top > 0 {
      MulMono2(w, 1, top);
    }
  }

  lemma FiveLimbs(low: seq<nat>, high: nat)
    requires |low| == LIMBS
    ensures Val(low + [high]) == Val(low) + Weight(LIMBS) * high
  {
    ValConcat(low, [high]);
    assert [high][1..] == [];
    assert Val([high]) == high;
  }

  lemma Short(r: seq<nat>)
    requires IsLimbs(r, LIMBS + 1) && Val(r) < Weight(LIMBS)
    ensures IsLimbs(r[..LIMBS], LIMBS) && Val(r[..LIMBS]) == Val(r)
  {
    hide Val, Weight;
    TopDecides(Weight(LIMBS), r[LIMBS], 0);
    FiveLimbs(r[..LIMBS], r[LIMBS]);
    assert r == r[..LIMBS] + [r[LIMBS]];
  }

  // ── The product ──────────────────────────────────────────────────────────

  /** The estimate of the quotient from the high halves of two products. */
  method QuotientEstimate(pHi: seq<Felt>, muLow: seq<Felt>) returns (q: seq<Felt>)
    requires IsLimbs(pHi, LIMBS) && IsLimbs(muLow, LIMBS)
    ensures IsLimbs(q, LIMBS)
    ensures var e := Val(pHi) + Val(pHi) * Val(muLow) / Weight(|pHi|); e < Weight(|pHi|) ==> Val(q) == e
  {
    hide Val, Weight;
    var pHiTimesMu := MulWide(pHi, muLow);
    LowHigh(pHiTimesMu);
    var carry;
    q, carry := AddWithCarry(pHi, pHiTimesMu[LIMBS..], 0);
    TopDecides(Weight(LIMBS), carry, 0);
  }

  /** The estimate of `x / n`, from the high half of `x`. */
  function Estimate(w: nat, n: nat, x: nat): int
    requires w > 0 && n > 0
  {
    x / w + (x / w) * MuLow(w, n) / w
  }

  /** How much too low the estimate is. */
  function Shortfall(w: nat, n: nat, x: nat): int
    requires w > 0 && n > 0
  {
    x / n - Estimate(w, n, x)
  }

  /** The facts of one Barrett product: the estimate fits, and the remainder is
      below `4 n`, or below `3 n` where two corrections are enough. */
  lemma EstimateFacts(w: nat, x: nat, n: nat)
    requires n < w < 2 * n && Covers(w, n, x)
    ensures var q := Estimate(w, n, x);
            && 0 <= q < w && 0 <= x - q * n < 4 * n
            && (LargeModulus(w, n) || x >= n * n ==> x - q * n < 3 * n)
  {
    hide LargeModulus, Covers, MuLow;
    MuLowRange(w, n);
    var mu, e := Divided(w * w, n);
    ConstantIs(w, n);
    var ph, xl := Divided(x, w);
    var d, f := Divided(ph * MuLow(w, n), w);
    WholeEstimate(w, mu, ph, d, f, MuLow(w, n), ph + d);
    assert mu * n == n * mu;
    EstimateBound(w, n, mu, e, x, ph, xl, ph + d, f);
    CoversBelow(w, n, x);
    EstimateFits(w, n, x, ph + d);
  }

  lemma ConstantIs(w: nat, n: nat)
    requires n > 0
    ensures w * w / n == w + MuLow(w, n)
  {
  }

  lemma CoversBelow(w: nat, n: nat, x: nat)
    requires n < w && Covers(w, n, x)
    ensures x < w * n
  {
    MulMono(n, w, n);
  }

  lemma Divided(a: nat, b: nat) returns (q: nat, r: nat)
    requires b > 0
    ensures q == a / b && r == a % b && r < b && b * q + r == a
  {
    QuotientSmall(a, b);
    q, r := a / b, a % b;
  }

  lemma EstimateBound(w: nat, n: nat, mu: nat, e: nat, x: nat, ph: nat, xl: nat, q: nat, f: nat)
    requires n < w < 2 * n && Covers(w, n, x)
    requires mu * n + e == w * w && e == w * w % n < n
    requires x == w * ph + xl && xl < w && w * q + f == ph * mu && f < w
    ensures 0 <= x - q * n < 4 * n
    ensures LargeModulus(w, n) || x >= n * n ==> x - q * n < 3 * n
  {
    hide LargeModulus, Slack;
    if x < n * n {
      FullWidthBound(w, n, mu, e, x, ph, xl, q, f);
      if LargeModulus(w, n) {
        LargeBound(w, n, mu, e, x, ph, xl, q, f);
      }
    } else {
      SlackCase(w, n, mu, e, x, ph, xl, q, f);
    }
  }

  lemma SlackCase(w: nat, n: nat, mu: nat, e: nat, x: nat, ph: nat, xl: nat, q: nat, f: nat)
    requires Slack(w, n) && x < w * n
    requires mu * n + e == w * w && e == w * w % n < n
    requires x == w * ph + xl && xl < w && w * q + f == ph * mu && f < w
    ensures 0 <= x - q * n < 3 * n
  {
    SlackBound(w, n, mu, e, x, ph, xl, q, f);
  }

  lemma LargeBound(w: nat, n: nat, mu: nat, e: nat, x: nat, ph: nat, xl: nat, q: nat, f: nat)
    requires LargeModulus(w, n)
    requires mu * n + e == w * w && e < n
    requires x == w * ph + xl && xl < w && x < n * n
    requires w * q + f == ph * mu && f < w
    ensures 0 <= x - q * n < 3 * n
  {
    BarrettBound(w, n, mu, e, x, ph, xl, q, f);
  }

  lemma WholeEstimate(w: nat, mu: nat, ph: nat, d: nat, f: nat, muLow: nat, q: nat)
    requires mu == w + muLow && w * d + f == ph * muLow && q == ph + d
    ensures w * q + f == ph * mu
  {
    assert w * q == w * ph + w * d;
    assert ph * mu == ph * w + ph * muLow;
  }

  lemma EstimateFits(w: nat, n: nat, x: nat, q: nat)
    requires 0 < n < w && x < w * n && 0 <= x - q * n
    ensures q < w
  {
    if q >= w {
      MulMono(w, q, n);
    }
  }

  /** The product modulo a 256-bit number. For reduced operands it is right exactly
      if the estimate is low by at most two. */
  method MulModBarrett(lhs: seq<Felt>, rhs: seq<Felt>, n: seq<Felt>) returns (r: seq<Felt>)
    requires IsLimbs(lhs, LIMBS) && IsLimbs(rhs, LIMBS) && IsLimbs(n, LIMBS) && FullWidth(n)
    ensures IsLimbs(r, LIMBS)
    ensures Val(lhs) < Val(n) && Val(rhs) < Val(n) ==>
              (Val(r) == (Val(lhs) * Val(rhs)) % Val(n) <==> Shortfall(Weight(|n|), Val(n), Val(lhs) * Val(rhs)) <= 2)
    ensures Estimable(n, Val(lhs), Val(rhs)) ==> Val(r) == (Val(lhs) * Val(rhs)) % Val(n)
  {
    hide Val, Weight, LargeModulus, Covers, Estimable, MuLow, BarrettModulus, Estimate, Shortfall;
    ghost var w := Weight(|n|);
    MuLowRange(w, Val(n));
    var muLow := BarrettMuLow(n);
    SmallMod(MuLow(w, Val(n)), w);
    var p := MulWide(lhs, rhs);
    LowHigh(p);
    var qEst := QuotientEstimate(p[LIMBS..], muLow);
    var qTimesN := MulWide(qEst, n);
    var rWide, borrow := SubWithBorrow(p, qTimesN, 0);
    var first := ConditionalSubN5(rWide[..LIMBS + 1], n);
    var second := ConditionalSubN5(first, n);
    r := second[..LIMBS];
    if (Val(lhs) < Val(n) && Val(rhs) < Val(n)) || Estimable(n, Val(lhs), Val(rhs)) {
      Covered(lhs, rhs, n);
      EstimateFacts(w, Val(p), Val(n));
      EstimateIs(w, Val(n), Val(p), Val(p[LIMBS..]), Val(muLow));
      SmallRemainder(p, qTimesN, rWide, borrow, n);
      FiveLimbs(second[..LIMBS], second[LIMBS]);
      assert second == second[..LIMBS] + [second[LIMBS]];
      ValBound(r);
      Corrected(w, Val(p), Val(n), Val(qEst), Val(second), Val(r), second[LIMBS]);
      ShortfallIs(w, Val(n), Val(p));
    }
  }

  lemma EstimateIs(w: nat, n: nat, x: nat, ph: nat, muLow: nat)
    requires w > 0 && n > 0 && ph == x / w && muLow == MuLow(w, n)
    ensures Estimate(w, n, x) == ph + ph * muLow / w
  {
  }

  lemma ShortfallIs(w: nat, n: nat, x: nat)
    requires w > 0 && n > 0
    ensures x - Estimate(w, n, x) * n < 3 * n <==> Shortfall(w, n, x) <= 2
  {
    hide Estimate;
    var q := Estimate(w, n, x);
    QuotientSmall(x, n);
    var k := x / n - q;
    assert n * (x / n) - q * n == k * n;
    if k >= 3 {
      MulMono(3, k, n);
    } else {
      MulMono2(n, k, 2);
    }
  }

  /** One reduced operand is enough for a curve order. */
  lemma OneReduced(n: seq<Felt>, a: seq<Felt>, b: seq<Felt>)
    requires CurveOrder(n) && IsLimbs(a, |n|) && Val(b) < Val(n)
    ensures Estimable(n, Val(a), Val(b)) && Estimable(n, Val(b), Val(a))
  {
    hide Val, Weight, CurveOrder;
    ValBound(a);
    ProductBelowBoth(Val(a), Val(b), Weight(|n|), Val(n));
  }

  lemma ProductBelowBoth(a: nat, b: nat, w: nat, n: nat)
    requires a < w && b < n
    ensures a * b < w * n && b * a < w * n
  {
    MulMono(a, w - 1, b);
    MulMono2(w - 1, b, n - 1);
    assert (w - 1) * (n - 1) == w * n - w - n + 1;
  }

  /** What two conditional subtractions leave in four limbs. */
  lemma Corrected(w: nat, x: nat, n: nat, q: nat, v: nat, r: nat, high: nat)
    requires 0 < n < w && 0 <= x - q * n < 4 * n && v == r + w * high && r < w
    requires var d := x - q * n; v == if d >= 2 * n then d - 2 * n else if d >= n then d - n else d
    ensures r == x % n <==> x - q * n < 3 * n
  {
    var d := x - q * n;
    var k := if d >= 3 * n then 3 else if d >= 2 * n then 2 else if d >= n then 1 else 0;
    assert x == n * (q + k) + (d - k * n);
    DivModUnique(x, n, q + k, d - k * n);
    TopDecides(w, high, 0);
    if d >= 3 * n && high > 0 {
      MulMono2(w, 1, high);
    }
  }

  /** The products the estimate covers. */
  lemma Covered(lhs: seq<Felt>, rhs: seq<Felt>, n: seq<Felt>)
    requires IsLimbs(lhs, |n|) && IsLimbs(rhs, |n|) && FullWidth(n)
    requires (Val(lhs) < Val(n) && Val(rhs) < Val(n)) || Estimable(n, Val(lhs), Val(rhs))
    ensures var x := Val(lhs) * Val(rhs);
            && Covers(Weight(|n|), Val(n), x)
            && (Estimable(n, Val(lhs), Val(rhs)) ==> LargeModulus(Weight(|n|), Val(n)) || x >= Val(n) * Val(n))
  {
    hide Weight, Val, Slack, LargeModulus;
    if Val(lhs) < Val(n) && Val(rhs) < Val(n) {
      ProductBelow(Val(lhs), Val(rhs), Val(n));
    }
    if BarrettModulus(n) {
      ModulusIsLarge(Weight(|n|), Val(n));
    }
    if CurveOrder(n) {
      OrderIsLarge(n);
      var d, k, e := OrderRemainder(n);
      SlackFrom(Weight(|n|), Val(n), d, k, e);
    }
  }

  lemma OrderIsLarge(n: seq<Felt>)
    requires CurveOrder(n)
    ensures LargeModulus(Weight(|n|), Val(n))
  {
    hide Val, Weight, LargeModulus;
    FourLimbs(n);
    Weights();
    ModulusIsLarge(Weight(|n|), Val(n));
  }

  /** The remainder fits five limbs, so no borrow is left and the rest is zero. */
  lemma SmallRemainder(p: seq<nat>, qn: seq<nat>, rWide: seq<nat>, borrow: nat, n: seq<nat>)
    requires IsLimbs(p, 2 * LIMBS) && IsLimbs(qn, 2 * LIMBS) && IsLimbs(rWide, 2 * LIMBS) && IsLimbs(n, LIMBS) && borrow <= 1
    requires Val(rWide) + Val(qn) == Val(p) + Weight(2 * LIMBS) * borrow
    requires 0 <= Val(p) - Val(qn) < 4 * Val(n)
    ensures Val(n) < Weight(LIMBS)
    ensures borrow == 0 && Val(rWide) == Val(p) - Val(qn)
    ensures IsLimbs(rWide[..LIMBS + 1], LIMBS + 1) && Val(rWide[..LIMBS + 1]) == Val(rWide)
  {
    hide Val, Weight;
    ValBound(rWide);
    ValBound(n);
    TopDecides(Weight(2 * LIMBS), borrow, 0);
    WeightNext(LIMBS);
    WeightGrows(LIMBS + 1, 2 * LIMBS);
    FirstFive(rWide);
  }

  lemma ProductBelow(a: nat, b: nat, n: nat)
    requires a < n && b < n
    ensures a * b < n * n
  {
    MulMono(a, n - 1, b);
    MulMono2(n - 1, b, n - 1);
    assert (n - 1) * (n - 1) < n * n;
  }

  /** Below `3 * 2^256` only the low five of eight limbs are in use. */
  lemma FirstFive(s: seq<nat>)
    requires IsLimbs(s, 2 * LIMBS) && Val(s) < Weight(LIMBS + 1)
    ensures IsLimbs(s[..LIMBS + 1], LIMBS + 1) && Val(s[..LIMBS + 1]) == Val(s)
  {
    hide Val, Weight;
    SplitVal(s, LIMBS + 1);
    NoCarryLeft(Weight(LIMBS + 1), Val(s[LIMBS + 1..]), Val(s[..LIMBS + 1]));
  }

  // ── A modulus that is too small ──────────────────────────────────────────

  /** 1121 / 2048 of `2^256`, and an operand below it. */
  const LOW_MODULUS: seq<Felt> := [0x0, 0x0, 0x0, 0x8C20000000000000]
  const LOW_OPERAND: seq<Felt> := [0x0, 0xB000000000000000, 0xFFFFFFFFFFFFFFFC, 0x8C1FFFFFFFFFFFFF]

  const LOW_N: nat := 0x8C20000000000000_0000000000000000_0000000000000000_0000000000000000
  const LOW_A: nat := 0x8C1FFFFFFFFFFFFF_FFFFFFFFFFFFFFFC_B000000000000000_0000000000000000
  const LOW_SQUARE: nat := 0x4CB303FFFFFFFFFF_FFFFFFFFFFFFFFFC_5FAC000000000000_000000000000000A_F900000000000000_0000000000000000_0000000000000000_0000000000000000
  const LOW_HIGH: nat := 0x4CB303FFFFFFFFFF_FFFFFFFFFFFFFFFC_5FAC000000000000_000000000000000A
  const LOW_MU: nat := 0xD3B25AE3E929CA8F_DF1D759BF99B0FC1_E24FEDBB087318E4_5E166148D967E83F
  const LOW_ESTIMATE: nat := 0x8C1FFFFFFFFFFFFF_FFFFFFFFFFFFFFF9_6000000000000000_0000000000000011

  lemma LowLimbs()
    ensures IsLimbs(LOW_MODULUS, LIMBS) && Val(LOW_MODULUS) == LOW_N
    ensures IsLimbs(LOW_OPERAND, LIMBS) && Val(LOW_OPERAND) == LOW_A
  {
    FourLimbs(LOW_MODULUS);
    FourLimbs(LOW_OPERAND);
  }

  lemma LowProduct()
    ensures LOW_A * LOW_A == LOW_SQUARE
  {
  }

  lemma LowConstant()
    ensures MuLow(W4, LOW_N) == LOW_MU
  {
    DivModUnique(W4 * W4, LOW_N, W4 + LOW_MU, 0x8420000000000000_0000000000000000_0000000000000000_0000000000000000);
  }

  lemma LowHighHalf()
    ensures LOW_SQUARE / W4 == LOW_HIGH
  {
    DivModUnique(LOW_SQUARE, W4, LOW_HIGH, 0xF900000000000000_0000000000000000_0000000000000000_0000000000000000);
  }

  lemma LowCorrection()
    ensures LOW_HIGH * LOW_MU / W4 == LOW_ESTIMATE - LOW_HIGH
  {
    DivModUnique(LOW_HIGH * LOW_MU, W4, LOW_ESTIMATE - LOW_HIGH, 0xFCA588E71BA1E99E_B7269817C00E9D96_4273494E547EF8EB_ACDFCCD87E0F1276);
  }

  lemma LowQuotient()
    ensures LOW_SQUARE / LOW_N == LOW_ESTIMATE + 3
  {
    DivModUnique(LOW_SQUARE, LOW_N, LOW_ESTIMATE + 3, 0x680000000000000_0000000000000000_0000000000000000_0000000000000000);
  }

  /** The estimate for its square is low by three. */
  lemma ThreeTooLow()
    ensures FullWidth(LOW_MODULUS) && IsLimbs(LOW_OPERAND, LIMBS) && Val(LOW_OPERAND) < Val(LOW_MODULUS)
    ensures Shortfall(Weight(|LOW_MODULUS|), Val(LOW_MODULUS), Val(LOW_OPERAND) * Val(LOW_OPERAND)) == 3
  {
    hide Val, MuLow;
    LowLimbs();
    Weights();
    LowProduct();
    LowConstant();
    LowHighHalf();
    LowCorrection();
    LowQuotient();
  }

  // ── Sums and differences ─────────────────────────────────────────────────

  method AddModN(a: seq<Felt>, b: seq<Felt>, n: seq<Felt>) returns (r: seq<Felt>)
    requires IsLimbs(a, LIMBS) && IsLimbs(b, LIMBS) && IsLimbs(n, LIMBS)
    requires Val(a) < Val(n) && Val(b) < Val(n)
    ensures IsLimbs(r, LIMBS) && Val(r) == (Val(a) + Val(b)) % Val(n)
  {
    hide Val, Weight;
    var sum, carry := AddWithCarry(a, b, 0);
    FiveLimbs(sum, carry);
    var r5 := ConditionalSubN5(sum + [carry], n);
    OnceOrNot(Val(a) + Val(b), Val(n));
    ValBound(n);
    Short(r5);
    r := r5[..LIMBS];
  }

  method SubModN(a: seq<Felt>, b: seq<Felt>, n: seq<Felt>) returns (r: seq<Felt>)
    requires IsLimbs(a, LIMBS) && IsLimbs(b, LIMBS) && IsLimbs(n, LIMBS)
    requires Val(a) < Val(n) && Val(b) < Val(n)
    ensures IsLimbs(r, LIMBS) && Val(r) == (Val(a) - Val(b)) % Val(n)
  {
    hide Val, Weight;
    var diff, borrow := SubWithBorrow(a, b, 0);
    ValBound(diff);
    ValBound(n);
    var diffPlusN, carry := AddWithCarry(diff, n, 0);
    ValBound(diffPlusN);
    TopDecides(Weight(LIMBS), carry, borrow);
    DivModUnique(Val(a) - Val(b), Val(n), if Val(a) < Val(b) then -1 else 0, if Val(a) < Val(b) then Val(a) - Val(b) + Val(n) else Val(a) - Val(b));
    r := SelectLimbs(borrow, diffPlusN, diff);
  }
}
