/** Reduction modulo the secp256k1 prime (`modular.rs`): three rounds that fold
    the limbs above `2^256`, then one conditional subtraction. */
module Solinas {
  import opened Felts
  import opened Limbs

  /** `p = 2^256 - c`. */
  const SECP256K1_C: nat := 0x1_0000_0000 + 977
  const SECP256K1_P: seq<Felt> := [0xFFFFFFFEFFFFFC2F, 0xFFFFFFFFFFFFFFFF, 0xFFFFFFFFFFFFFFFF, 0xFFFFFFFFFFFFFFFF]
  const P_K1: nat := W4 - SECP256K1_C

  lemma ValOf4(a: nat, b: nat, c: nat, d: nat)
    ensures Val([a, b, c, d]) == a + TWO_64 * (b + TWO_64 * (c + TWO_64 * d))
  {
    assert [a, b, c, d][1..] == [b, c, d] && [b, c, d][1..] == [c, d] && [c, d][1..] == [d] && [d][1..] == [];
    assert Val([d]) == d;
    assert Val([c, d]) == c + TWO_64 * d;
    assert Val([b, c, d]) == b + TWO_64 * Val([c, d]);
  }

  lemma PrimeLimbs()
    ensures IsLimbs(SECP256K1_P, LIMBS) && Val(SECP256K1_P) == P_K1
  {
    ValOf4(SECP256K1_P[0], SECP256K1_P[1], SECP256K1_P[2], SECP256K1_P[3]);
    assert SECP256K1_P == [SECP256K1_P[0], SECP256K1_P[1], SECP256K1_P[2], SECP256K1_P[3]];
  }

  // ── Adding numbers of different lengths ──────────────────────────────────

  function UpTo(s: seq<nat>, k: nat): seq<nat> {
    if k < |s| then s[..k] else s
  }

  function DigitAt(s: seq<nat>, k: nat): nat {
    if k < |s| then s[k] else 0
  }

  lemma UpToSnoc(s: seq<nat>, k: nat)
    ensures Val(UpTo(s, k + 1)) == Val(UpTo(s, k)) + Weight(k) * DigitAt(s, k)
  {
    if k < |s| {
      ValSnoc(s, k);
      Whole(s);
    }
  }

  lemma UpToZero(s: seq<nat>)
    ensures Val(UpTo(s, 0)) == 0
  {
  }

  /** A 4-limb number plus one of up to 5 limbs, when the sum fits 5 limbs. */
  method Add4PlusN(lo: seq<Felt>, hi: seq<Felt>) returns (result: seq<Felt>)
    requires IsLimbs(lo, LIMBS) && IsLimbs(hi, |hi|) && |hi| <= LIMBS + 1
    requires Val(lo) + Val(hi) < Weight(LIMBS + 1)
    ensures IsLimbs(result, LIMBS + 1) && Val(result) == Val(lo) + Val(hi)
  {
    hide Val, Weight, Add, UpTo;
    result := seq(LIMBS + 1, _ => 0);
    var carry: Felt := 0;
    ValStart(result, 0);
    UpToZero(lo);
    UpToZero(hi);
    for k := 0 to LIMBS + 1
      invariant |result| == LIMBS + 1 && carry <= 1
      invariant forall j :: 0 <= j < k ==> result[j] < TWO_64
      invariant Val(result[..k]) + Weight(k) * carry == Val(UpTo(lo, k)) + Val(UpTo(hi, k))
    {
      var sum := carry;
      if k < LIMBS {
        AddExact(sum, lo[k]);
        sum := Add(sum, lo[k]);
      }
      if k < |hi| {
        AddExact(sum, hi[k]);
        sum := Add(sum, hi[k]);
      }
      var (low, nextCarry) := SplitLow64(sum);
      CarryStep(Weight(k), Val(result[..k]), low, nextCarry, DigitAt(lo, k) + DigitAt(hi, k), carry);
      Distribute(Weight(k), DigitAt(lo, k), DigitAt(hi, k));
      StoreDigit(result, k, low);
      UpToSnoc(lo, k);
      UpToSnoc(hi, k);
      result := result[k := low];
      carry := nextCarry;
    }
    Whole(result);
    AllOf(lo, LIMBS + 1);
    AllOf(hi, LIMBS + 1);
    NoCarryLeft(Weight(LIMBS + 1), carry, Val(result));
  }

  lemma AllOf(s: seq<nat>, k: nat)
    requires |s| <= k
    ensures UpTo(s, k) == s
  {
  }

  // ── One round ────────────────────────────────────────────────────────────

  lemma ScaleStep(w: nat, c: nat, before: nat, digit: nat)
    ensures c * (before + w * digit) == c * before + w * (digit * c)
  {
    calc {
      c * (before + w * digit);
      c * before + c * (w * digit);
      { assert c * (w * digit) == w * (digit * c); }
      c * before + w * (digit * c);
    }
  }

  /** The high limbs times the reduction constant. */
  method TimesC(hi: seq<Felt>, c: Felt) returns (product: seq<Felt>)
    requires IsLimbs(hi, |hi|) && |hi| <= LIMBS && c == SECP256K1_C
    ensures IsLimbs(product, LIMBS + 1) && Val(product) == c * Val(hi)
  {
    hide Val, Weight, Add, Mul;
    product := seq(LIMBS + 1, _ => 0);
    var carry: Felt := 0;
    ValStart(product, 0);
    ValStart(hi, 0);
    for i := 0 to |hi|
      invariant |product| == LIMBS + 1 && carry <= c
      invariant forall j :: 0 <= j < i ==> product[j] < TWO_64
      invariant Val(product[..i]) + Weight(i) * carry == c * Val(hi[..i])
    {
      MulMono(hi[i], TWO_64 - 1, c);
      MulExact(hi[i], c);
      AddExact(Mul(hi[i], c), carry);
      var (low, nextCarry) := SplitLow64(Add(Mul(hi[i], c), carry));
      CarryStep(Weight(i), Val(product[..i]), low, nextCarry, hi[i] * c, carry);
      StoreDigit(product, i, low);
      ValSnoc(hi, i);
      ScaleStep(Weight(i), c, Val(hi[..i]), hi[i]);
      product := product[i := low];
      carry := nextCarry;
    }
    Whole(hi);
    for i := |hi| to LIMBS + 1
      invariant |product| == LIMBS + 1
      invariant forall j :: 0 <= j < i ==> product[j] < TWO_64
      invariant Val(product[..i]) + Weight(i) * carry == c * Val(hi)
    {
      var (low, nextCarry) := SplitLow64(carry);
      CarryStep(Weight(i), Val(product[..i]), low, nextCarry, 0, carry);
      StoreDigit(product, i, low);
      product := product[i := low];
      carry := nextCarry;
    }
    Whole(product);
    ShortBound(hi);
    WeightNext(LIMBS);
    RoundFits(Weight(LIMBS), TWO_64, c, 0, Val(hi));
    NoCarryLeft(Weight(LIMBS + 1), carry, Val(product));
  }

  lemma RoundFits(w: nat, t: nat, c: nat, lo: nat, hi: nat)
    requires lo < w && hi < w && c < t
    ensures lo + c * hi < t * w
  {
    MulMono2(c, hi, w - 1);
    assert c * (w - 1) == c * w - c;
    MulMono(c + 1, t, w);
    assert (c + 1) * w == c * w + w;
  }

  lemma ShortBound(s: seq<nat>)
    requires IsLimbs(s, |s|) && |s| <= LIMBS
    ensures Val(s) < Weight(LIMBS)
  {
    hide Val, Weight;
    ValBound(s);
    WeightGrows(|s|, LIMBS);
  }

  /** `lo + 2^256 hi` with `2^256` replaced by `c`. */
  method SolinasRound(lo: seq<Felt>, hi: seq<Felt>, c: Felt) returns (r: seq<Felt>)
    requires IsLimbs(lo, LIMBS) && IsLimbs(hi, |hi|) && |hi| <= LIMBS && c == SECP256K1_C
    ensures IsLimbs(r, LIMBS + 1) && Val(r) == Val(lo) + c * Val(hi)
  {
    hide Val, Weight;
    var hiTimesC := TimesC(hi, c);
    ShortBound(hi);
    ShortBound(lo);
    WeightNext(LIMBS);
    RoundFits(Weight(LIMBS), TWO_64, c, Val(lo), Val(hi));
    r := Add4PlusN(lo, hiTimesC);
  }

  // ── Three rounds ─────────────────────────────────────────────────────────

  /** What one round does to the number. */
  function Fold(x: nat): nat {
    x % W4 + SECP256K1_C * (x / W4)
  }

  /** Three rounds keep the residue; the part above `2^256` shrinks to at most
      `c`, to a bit, and to nothing. */
  lemma SolinasShrinks(x: nat)
    requires x / W4 < W4
    ensures Fold(x) / W4 <= SECP256K1_C < 0x4_0000_0000
    ensures Fold(Fold(x)) / W4 <= 1
    ensures Fold(Fold(Fold(x))) < W4 < 2 * P_K1
    ensures Fold(Fold(Fold(x))) % P_K1 == x % P_K1
  {
    FoldResidue(x);
    FoldResidue(Fold(x));
    FoldResidue(Fold(Fold(x)));
    assert Fold(x) / W4 <= SECP256K1_C;
    assert Fold(Fold(x)) < W4 + SECP256K1_C * SECP256K1_C;
  }

  lemma FoldResidue(x: nat)
    ensures Fold(x) % P_K1 == x % P_K1
  {
    var q := x / W4;
    assert x == Fold(x) + P_K1 * q;
    ModShift(Fold(x), P_K1, q);
  }

  lemma ModShift(a: nat, m: nat, k: nat)
    requires m > 0
    ensures (a + m * k) % m == a % m
  {
    assert a + m * k == m * (a / m + k) + a % m;
    DivModUnique(a + m * k, m, a / m + k, a % m);
  }

  // ── The reduction ────────────────────────────────────────────────────────

  /** Or of two bits, as `a + b - a b`. */
  function OrOf(a: Felt, b: Felt): (r: Felt)
    ensures a <= 1 && b <= 1 ==> r == if a == 1 || b == 1 then 1 else 0
  {
    Add(Add(a, b), Neg(Mul(a, b)))
  }

  lemma SplitVal(s: seq<nat>, k: nat)
    requires k <= |s|
    ensures Val(s) == Val(s[..k]) + Weight(k) * Val(s[k..])
  {
    hide Val, Weight;
    assert s[..k] + s[k..] == s;
    ValConcat(s[..k], s[k..]);
  }

  /** A number of more than 4 limbs as its low part and the rest. */
  lemma LowHigh(s: seq<nat>)
    requires IsLimbs(s, |s|) && |s| >= LIMBS
    ensures Val(s[..LIMBS]) == Val(s) % Weight(LIMBS) && Val(s[LIMBS..]) == Val(s) / Weight(LIMBS)
  {
    hide Val, Weight;
    SplitVal(s, LIMBS);
    ValBound(s[..LIMBS]);
    DivModUnique(Val(s), Weight(LIMBS), Val(s[LIMBS..]), Val(s[..LIMBS]));
  }

  lemma TopLimb(s: seq<nat>)
    requires IsLimbs(s, LIMBS + 1)
    ensures s[LIMBS] == Val(s) / W4 && Val(s[..LIMBS]) == Val(s) % W4
  {
    LowHigh(s);
    Weights();
    assert s[LIMBS..] == [s[LIMBS]] && [s[LIMBS]][1..] == [];
    assert Val([s[LIMBS]]) == s[LIMBS];
  }

  lemma IsSlice(s: seq<nat>, n: nat)
    requires IsLimbs(s, n) && n >= LIMBS
    ensures |s| == n && IsLimbs(s, |s|)
    ensures IsLimbs(s[..LIMBS], LIMBS) && IsLimbs(s[LIMBS..], n - LIMBS) && |s[LIMBS..]| == n - LIMBS
    ensures IsLimbs(s[LIMBS..], |s[LIMBS..]|)
  {
  }

  /** A round computes the fold of its operand. */
  lemma FoldOf(s: seq<nat>, n: nat)
    requires IsLimbs(s, n) && n >= LIMBS
    ensures |s| == n && |s[LIMBS..]| == n - LIMBS
    ensures IsLimbs(s[..LIMBS], LIMBS) && IsLimbs(s[LIMBS..], |s[LIMBS..]|)
    ensures Val(s[..LIMBS]) + SECP256K1_C * Val(s[LIMBS..]) == Fold(Val(s))
  {
    hide Val, Weight;
    IsSlice(s, n);
    LowHigh(s);
    Weights();
  }

  method ThreeRounds(x: seq<Felt>) returns (r3: seq<Felt>)
    requires IsLimbs(x, 2 * LIMBS)
    ensures IsLimbs(r3, LIMBS + 1) && Val(r3) == Fold(Fold(Fold(Val(x))))
  {
    hide Val, IsLimbs, Weight, Fold;
    FoldOf(x, 2 * LIMBS);
    var r1 := SolinasRound(x[..LIMBS], x[LIMBS..], SECP256K1_C);
    FoldOf(r1, LIMBS + 1);
    var r2 := SolinasRound(r1[..LIMBS], r1[LIMBS..], SECP256K1_C);
    FoldOf(r2, LIMBS + 1);
    r3 := SolinasRound(r2[..LIMBS], r2[LIMBS..], SECP256K1_C);
  }

  method ReduceModP(x: seq<Felt>) returns (r: seq<Felt>)
    requires IsLimbs(x, 2 * LIMBS)
    ensures IsLimbs(r, LIMBS) && Val(r) == Val(x) % P_K1
  {
    hide Val, Weight, Fold;
    var r3 := ThreeRounds(x);
    HighHalfFits(x);
    SolinasShrinks(Val(x));
    TopLimb(r3);
    var lo3 := r3[..LIMBS];
    PrimeLimbs();
    var lo3LtP := LtBool(lo3, SECP256K1_P);
    var needSub := OrOf(r3[LIMBS], NotBitOf(lo3LtP));
    var subResult, borrow := SubWithBorrow(lo3, SECP256K1_P, 0);
    ValBound(subResult);
    OnceOrNot(Val(lo3), P_K1);
    r := SelectLimbs(needSub, subResult, lo3);
  }

  lemma HighHalfFits(x: seq<nat>)
    requires IsLimbs(x, 2 * LIMBS)
    ensures Val(x) / W4 < W4
  {
    hide Val, Weight;
    LowHigh(x);
    ValBound(x[LIMBS..]);
    Weights();
  }

  lemma OnceOrNot(a: nat, m: nat)
    requires a < 2 * m
    ensures a % m == if a >= m then a - m else a
  {
    DivModUnique(a, m, if a >= m then 1 else 0, if a >= m then a - m else a);
  }

  /** The product modulo the secp256k1 prime. */
  method MulModP(lhs: seq<Felt>, rhs: seq<Felt>) returns (r: seq<Felt>)
    requires IsLimbs(lhs, LIMBS) && IsLimbs(rhs, LIMBS)
    ensures IsLimbs(r, LIMBS) && Val(r) == (Val(lhs) * Val(rhs)) % Val(SECP256K1_P)
  {
    var product := MulWide(lhs, rhs);
    r := ReduceModP(product);
  }
}
