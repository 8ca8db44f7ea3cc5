/** Arithmetic on little-endian 64-bit limbs (`limbs.rs`). Every value is the one
    the emitted field operations compute. */
module Limbs {
  import opened Felts

  const LIMBS: nat := 4
  const TWO_64: nat := 0x1_0000_0000_0000_0000

  /** `2^(64 k)`. */
  function Weight(k: nat): (w: nat)
    ensures w > 0
  {
    if k == 0 then 1 else TWO_64 * Weight(k - 1)
  }

  /** The number with digits `s` in base `2^64`, least significant first; the
      digits need not be below the base. */
  function Val(s: seq<nat>): nat {
    if s == [] then 0 else s[0] + TWO_64 * Val(s[1..])
  }

  predicate IsLimbs(s: seq<nat>, n: nat) {
    |s| == n && forall i :: 0 <= i < n ==> s[i] < TWO_64
  }

  lemma Weights()
    ensures Weight(0) == 1 && Weight(1) == TWO_64 && Weight(4) == W4
  {
    assert Weight(2) == TWO_64 * Weight(1);
    assert Weight(3) == TWO_64 * Weight(2);
    assert Weight(4) == TWO_64 * Weight(3);
  }

  lemma {:induction false} WeightGrows(i: nat, j: nat)
    requires i <= j
    ensures Weight(i) <= Weight(j)
    decreases j
  {
    if i < j {
      WeightGrows(i, j - 1);
    }
  }

  lemma WeightZero()
    ensures Weight(0) == 1
  {
  }

  lemma WeightNext(i: nat)
    ensures Weight(i + 1) == TWO_64 * Weight(i)
  {
  }

  /** No carry is left when the whole fits. */
  lemma NoCarryLeft(w: nat, carry: nat, low: nat)
    requires low + w * carry < w
    ensures carry == 0
  {
    if carry > 0 {
      MulMono2(w, 1, carry);
    }
  }

  const W4: nat := 0x1_0000000000000000_0000000000000000_0000000000000000_0000000000000000

  lemma {:induction false} WeightSum(i: nat, j: nat)
    ensures Weight(i + j) == Weight(i) * Weight(j)
    decreases i
  {
    hide Weight;
    if i > 0 {
      WeightSum(i - 1, j);
      WeightNext(i - 1);
      WeightNext(i + j - 1);
      Regroup3(TWO_64, Weight(i - 1), Weight(j));
    } else {
      WeightZero();
    }
  }

  lemma Regroup3(a: int, b: int, c: int)
    ensures a * (b * c) == (a * b) * c
  {
  }

  lemma {:induction false} ValConcat(s: seq<nat>, t: seq<nat>)
    ensures Val(s + t) == Val(s) + Weight(|s|) * Val(t)
    decreases |s|
  {
    if s == [] {
      assert s + t == t;
    } else {
      assert (s + t)[1..] == s[1..] + t;
      ValConcat(s[1..], t);
      var w := Weight(|s| - 1);
      assert TWO_64 * (w * Val(t)) == (TWO_64 * w) * Val(t);
    }
  }

  lemma ValSnoc(s: seq<nat>, i: nat)
    requires i < |s|
    ensures Val(s[..i + 1]) == Val(s[..i]) + Weight(i) * s[i]
  {
    assert s[..i + 1] == s[..i] + [s[i]];
    ValConcat(s[..i], [s[i]]);
    assert [s[i]][1..] == [];
    assert Val([s[i]]) == s[i];
  }

  lemma {:induction false} ValBound(s: seq<nat>)
    requires IsLimbs(s, |s|)
    ensures Val(s) < Weight(|s|)
    decreases |s|
  {
    if s != [] {
      ValBound(s[1..]);
    }
  }

  /** Limbs are determined by the value. */
  lemma {:induction false} ValInjective(s: seq<nat>, t: seq<nat>)
    requires IsLimbs(s, |s|) && IsLimbs(t, |s|) && Val(s) == Val(t)
    ensures s == t
    decreases |s|
  {
    if s != [] {
      assert s[0] == t[0] && Val(s[1..]) == Val(t[1..]);
      ValInjective(s[1..], t[1..]);
      assert s == [s[0]] + s[1..] && t == [t[0]] + t[1..];
    }
  }

  // ── Splitting ────────────────────────────────────────────────────────────

  function SplitLow64(value: Felt): (r: (Felt, Felt))
    ensures value == r.0 + TWO_64 * r.1 && r.0 < TWO_64
  {
    (UMod(value, TWO_64), UintDiv(value, TWO_64))
  }

  // ── Addition and subtraction ─────────────────────────────────────────────

  /** One digit of a carry chain: what the low part and the carry add up to. */
  lemma CarryStep(w: nat, done: nat, low: nat, high: nat, digit: nat, carry: nat)
    requires low + TWO_64 * high == digit + carry
    ensures (done + w * low) + (TWO_64 * w) * high == (done + w * carry) + w * digit
  {
    calc {
      w * low + (TWO_64 * w) * high;
      w * (low + TWO_64 * high);
      w * (digit + carry);
      w * digit + w * carry;
    }
  }

  lemma Distribute(w: nat, a: nat, b: nat)
    ensures w * (a + b) == w * a + w * b
  {
  }

  method AddWithCarry(lhs: seq<Felt>, rhs: seq<Felt>, carryIn: Felt) returns (limbs: seq<Felt>, carry: Felt)
    requires IsLimbs(lhs, LIMBS) && IsLimbs(rhs, LIMBS) && carryIn <= 1
    ensures IsLimbs(limbs, LIMBS) && carry <= 1
    ensures Val(limbs) + Weight(LIMBS) * carry == Val(lhs) + Val(rhs) + carryIn
  {
    hide Val, Weight, Add;
    limbs := seq(LIMBS, _ => carryIn);
    carry := carryIn;
    ValStart(limbs, carry);
    ValStart(lhs, 0);
    ValStart(rhs, 0);
    for i := 0 to LIMBS
      invariant |limbs| == LIMBS && carry <= 1
      invariant forall j :: 0 <= j < i ==> limbs[j] < TWO_64
      invariant Val(limbs[..i]) + Weight(i) * carry == Val(lhs[..i]) + Val(rhs[..i]) + carryIn
    {
      AddExact(lhs[i], rhs[i]);
      var sum := Add(lhs[i], rhs[i]);
      AddExact(sum, carry);
      var (low, nextCarry) := SplitLow64(Add(sum, carry));
      CarryStep(Weight(i), Val(limbs[..i]), low, nextCarry, lhs[i] + rhs[i], carry);
      Distribute(Weight(i), lhs[i], rhs[i]);
      StoreDigit(limbs, i, low);
      ValSnoc(lhs, i);
      ValSnoc(rhs, i);
      limbs := limbs[i := low];
      carry := nextCarry;
    }
    Whole(limbs);
    Whole(lhs);
    Whole(rhs);
  }

  lemma ValStart(s: seq<nat>, carry: nat)
    ensures Val(s[..0]) == 0 && Weight(0) * carry == carry
  {
  }

  lemma Whole(s: seq<nat>)
    ensures s[..|s|] == s
  {
  }

  /** Storing the next digit extends the value of the digits so far. */
  lemma StoreDigit(s: seq<nat>, i: nat, digit: nat)
    requires i < |s|
    ensures Val(s[i := digit][..i + 1]) == Val(s[..i]) + Weight(i) * digit
    ensures Weight(i + 1) == TWO_64 * Weight(i)
  {
    ValSnoc(s[i := digit], i);
    assert s[i := digit][..i] == s[..i];
  }

  lemma BorrowStep(w: nat, l: nat, r: nat, low: nat, high: nat, borrow: nat)
    requires high <= 1 && low + TWO_64 * high == l + TWO_64 - r - borrow
    ensures w * low + w * r + w * borrow == w * l + (TWO_64 * w) * (1 - high)
  {
    calc {
      w * low + w * r + w * borrow;
      w * (low + r + borrow);
      w * (l + TWO_64 * (1 - high));
      w * l + w * (TWO_64 * (1 - high));
      w * l + (TWO_64 * w) * (1 - high);
    }
  }

  /** For any number of limbs. */
  method SubWithBorrow(lhs: seq<Felt>, rhs: seq<Felt>, borrowIn: Felt) returns (limbs: seq<Felt>, borrow: Felt)
    requires IsLimbs(lhs, |lhs|) && IsLimbs(rhs, |lhs|) && borrowIn <= 1
    ensures IsLimbs(limbs, |lhs|) && borrow <= 1
    ensures Val(limbs) + Val(rhs) + borrowIn == Val(lhs) + Weight(|lhs|) * borrow
  {
    hide Val, Weight, Add, Neg;
    limbs := seq(|lhs|, _ => borrowIn);
    borrow := borrowIn;
    ValStart(limbs, borrow);
    ValStart(lhs, 0);
    ValStart(rhs, 0);
    for i := 0 to |lhs|
      invariant |limbs| == |lhs| && borrow <= 1
      invariant forall j :: 0 <= j < i ==> limbs[j] < TWO_64
      invariant Val(limbs[..i]) + Val(rhs[..i]) + borrowIn == Val(lhs[..i]) + Weight(i) * borrow
    {
      var negRhs := Neg(rhs[i]);
      var negBorrow := Neg(borrow);
      AddExact(lhs[i], TWO_64);
      var plusTwo64 := Add(lhs[i], TWO_64);
      SubExact(plusTwo64, rhs[i]);
      var afterRhs := Add(plusTwo64, negRhs);
      SubExact(afterRhs, borrow);
      var (low, noUnderflow) := SplitLow64(Add(afterRhs, negBorrow));
      BorrowStep(Weight(i), lhs[i], rhs[i], low, noUnderflow, borrow);
      StoreDigit(limbs, i, low);
      ValSnoc(lhs, i);
      ValSnoc(rhs, i);
      NotBit(noUnderflow);
      limbs := limbs[i := low];
      borrow := Add(1, Neg(noUnderflow));
    }
    Whole(limbs);
    Whole(lhs);
    Whole(rhs);
  }

  /** `lhs < rhs` as 0 or 1, the borrow out of the subtraction. */
  method LtBool(lhs: seq<Felt>, rhs: seq<Felt>) returns (lt: Felt)
    requires IsLimbs(lhs, LIMBS) && IsLimbs(rhs, LIMBS)
    ensures lt == if Val(lhs) < Val(rhs) then 1 else 0
  {
    hide Val, Weight;
    var limbs;
    limbs, lt := SubWithBorrow(lhs, rhs, 0);
    ValBound(limbs);
    ValBound(lhs);
    ValBound(rhs);
    Weights();
  }

  // ── Equality ─────────────────────────────────────────────────────────────

  function Square(x: int): nat {
    assert x * x >= 0;
    x * x
  }

  lemma SquareBound(x: int, m: int)
    requires -m <= x <= m
    ensures Square(x) <= m * m
  {
    if x >= 0 {
      MulMono(x, m, x);
      MulMono(x, m, m);
    } else {
      MulMono(-x, m, -x);
      MulMono(-x, m, m);
    }
  }

  /** The square of a difference survives the wrap-around of the negation. */
  lemma SquareOfDiff(m: nat, w: nat, l: nat, r: nat, diff: nat)
    requires l < w && r < w && w <= m && 4 * (w * w) + 4 <= m
    requires diff == if l >= r then l - r else m - (r - l)
    ensures (diff * diff) % m == Square(l - r) < m / 4
  {
    SquareBound(l - r, w);
    QuarterBound(w * w, Square(l - r), m);
    if l >= r {
      SmallMod(diff * diff, m);
    } else {
      SquareFlips(l, r);
      NegativeSquare(m, r - l);
    }
  }

  lemma QuarterBound(ww: nat, sq: nat, m: nat)
    requires sq <= ww && 4 * ww + 4 <= m
    ensures sq < m / 4 <= m
  {
  }

  lemma SquareFlips(l: int, r: int)
    ensures Square(l - r) == (r - l) * (r - l)
  {
  }

  lemma DiffIs(l: Felt, r: Felt)
    ensures Add(l, Neg(r)) == if l >= r then l - r else PRIME - (r - l)
  {
    if l >= r {
      SubExact(l, r);
    }
  }

  lemma SquareFits(l: Felt, r: Felt, diff: Felt, sq: Felt)
    requires l < TWO_64 && r < TWO_64
    requires diff == if l >= r then l - r else PRIME - (r - l)
    requires sq == Mul(diff, diff)
    ensures sq == Square(l - r) < PRIME / 4
  {
    hide Square;
    SquareOfDiff(PRIME, TWO_64, l, r, diff);
  }

  method SquaredDifference(l: Felt, r: Felt) returns (sq: Felt)
    requires l < TWO_64 && r < TWO_64
    ensures sq == Square(l - r) < PRIME / 4
  {
    hide *;
    var diff := Add(l, Neg(r));
    sq := Mul(diff, diff);
    DiffIs(l, r);
    SquareFits(l, r, diff, sq);
  }

  lemma NegativeSquare(m: nat, d: nat)
    requires d <= m && d * d < m
    ensures ((m - d) * (m - d)) % m == d * d
  {
    assert (m - d) * (m - d) == d * d + m * (m - 2 * d);
    DivModUnique((m - d) * (m - d), m, m - 2 * d, d * d);
  }

  /** Limb-wise equality as 0 or 1, by the sum of squared differences. */
  method EqBool(lhs: seq<Felt>, rhs: seq<Felt>) returns (eq: Felt)
    requires IsLimbs(lhs, LIMBS) && IsLimbs(rhs, LIMBS)
    ensures eq == if Val(lhs) == Val(rhs) then 1 else 0
  {
    hide Val, Add;
    var sumSq: Felt := 0;
    for i := 0 to LIMBS
      invariant sumSq <= i * (PRIME / 4)
      invariant sumSq == 0 <==> lhs[..i] == rhs[..i]
    {
      var sq := SquaredDifference(lhs[i], rhs[i]);
      assert lhs[..i + 1] == lhs[..i] + [lhs[i]] && rhs[..i + 1] == rhs[..i] + [rhs[i]];
      SquareZero((lhs[i] as int) - (rhs[i] as int));
      AddExact(sumSq, sq);
      sumSq := Add(sumSq, sq);
    }
    Whole(lhs);
    Whole(rhs);
    if Val(lhs) == Val(rhs) {
      ValInjective(lhs, rhs);
    }
    eq := if sumSq == 0 then 1 else 0;
  }

  lemma SquareZero(x: int)
    ensures Square(x) == 0 <==> x == 0
  {
  }

  // ── Multiplication ───────────────────────────────────────────────────────

  lemma {:induction false} ValUpdate(s: seq<nat>, k: nat, x: nat)
    requires k < |s|
    ensures Val(s[k := s[k] + x]) == Val(s) + Weight(k) * x
    decreases k
  {
    if k == 0 {
      assert s[0 := s[0] + x][1..] == s[1..];
    } else {
      assert s[k := s[k] + x][1..] == s[1..][k - 1 := s[1..][k - 1] + x];
      ValUpdate(s[1..], k - 1, x);
      var w := Weight(k - 1);
      assert TWO_64 * (w * x) == (TWO_64 * w) * x;
    }
  }

  lemma {:induction false} ValZeros(n: nat)
    ensures Val(seq(n, _ => 0)) == 0
  {
    if n > 0 {
      assert seq(n, _ => 0)[1..] == seq(n - 1, _ => 0);
      ValZeros(n - 1);
    }
  }

  /** The largest product of two limbs. */
  const MAX_PRODUCT: nat := (TWO_64 - 1) * (TWO_64 - 1)

  lemma ProductBound(a: nat, b: nat)
    requires a < TWO_64 && b < TWO_64
    ensures a * b <= MAX_PRODUCT
  {
    MulMono(a, TWO_64 - 1, b);
    MulMono(b, TWO_64 - 1, TWO_64 - 1);
  }

  lemma RowStep(i: nat, j: nat, a: nat, b: nat, before: nat)
    ensures Weight(i) * a * (before + Weight(j) * b) == Weight(i) * a * before + Weight(i + j) * (a * b)
  {
    WeightSum(i, j);
    var u, v := Weight(i), Weight(j);
    calc {
      u * a * (before + v * b);
      u * a * before + u * a * (v * b);
      { assert u * a * (v * b) == (u * v) * (a * b); }
      u * a * before + (u * v) * (a * b);
    }
  }

  /** The partial products of one row added to the columns. */
  method AddRow(columns: seq<Felt>, i: nat, a: Felt, rhs: seq<Felt>) returns (r: seq<Felt>)
    requires i < LIMBS && a < TWO_64 && IsLimbs(rhs, LIMBS)
    requires |columns| == 2 * LIMBS && forall k :: 0 <= k < 2 * LIMBS ==> columns[k] <= i * MAX_PRODUCT
    ensures |r| == 2 * LIMBS && forall k :: 0 <= k < 2 * LIMBS ==> r[k] <= (i + 1) * MAX_PRODUCT
    ensures Val(r) == Val(columns) + Weight(i) * a * Val(rhs)
  {
    hide Val, Weight, Add, Mul;
    r := columns;
    ValStart(rhs, 0);
    for j := 0 to LIMBS
      invariant |r| == 2 * LIMBS
      invariant forall k :: 0 <= k < 2 * LIMBS ==> r[k] <= (if k < i + j then (i + 1) * MAX_PRODUCT else i * MAX_PRODUCT)
      invariant Val(r) == Val(columns) + Weight(i) * a * Val(rhs[..j])
    {
      ProductBound(a, rhs[j]);
      MulExact(a, rhs[j]);
      var product := Mul(a, rhs[j]);
      AddExact(r[i + j], product);
      ValUpdate(r, i + j, product);
      ValSnoc(rhs, j);
      RowStep(i, j, a, rhs[j], Val(rhs[..j]));
      r := r[i + j := Add(r[i + j], product)];
    }
    Whole(rhs);
  }

  /** The columns with the carries moved up. */
  method CarryColumns(columns: seq<Felt>) returns (limbs: seq<Felt>)
    requires |columns| == 2 * LIMBS && forall k :: 0 <= k < 2 * LIMBS ==> columns[k] <= LIMBS * MAX_PRODUCT
    requires Val(columns) < Weight(2 * LIMBS)
    ensures IsLimbs(limbs, 2 * LIMBS) && Val(limbs) == Val(columns)
  {
    hide Val, Weight, Add;
    limbs := seq(2 * LIMBS, _ => 0);
    var carry: Felt := 0;
    ValStart(limbs, 0);
    ValStart(columns, 0);
    for k := 0 to 2 * LIMBS
      invariant |limbs| == 2 * LIMBS && carry <= LIMBS * TWO_64
      invariant forall j :: 0 <= j < k ==> limbs[j] < TWO_64
      invariant Val(limbs[..k]) + Weight(k) * carry == Val(columns[..k])
    {
      AddExact(columns[k], carry);
      var (low, nextCarry) := SplitLow64(Add(columns[k], carry));
      CarryStep(Weight(k), Val(limbs[..k]), low, nextCarry, columns[k], carry);
      StoreDigit(limbs, k, low);
      ValSnoc(columns, k);
      limbs := limbs[k := low];
      carry := nextCarry;
    }
    Whole(limbs);
    Whole(columns);
    NoCarryLeft(Weight(2 * LIMBS), carry, Val(limbs));
  }

  method MulWide(lhs: seq<Felt>, rhs: seq<Felt>) returns (limbs: seq<Felt>)
    requires IsLimbs(lhs, LIMBS) && IsLimbs(rhs, LIMBS)
    ensures IsLimbs(limbs, 2 * LIMBS) && Val(limbs) == Val(lhs) * Val(rhs)
  {
    hide Val, Weight;
    var columns: seq<Felt> := seq(2 * LIMBS, _ => 0);
    ZeroColumns(columns);
    ValStart(lhs, 0);
    for i := 0 to LIMBS
      invariant |columns| == 2 * LIMBS && forall k :: 0 <= k < 2 * LIMBS ==> columns[k] <= i * MAX_PRODUCT
      invariant Val(columns) == Val(lhs[..i]) * Val(rhs)
    {
      columns := AddRow(columns, i, lhs[i], rhs);
      ValSnoc(lhs, i);
      assert (Val(lhs[..i]) + Weight(i) * lhs[i]) * Val(rhs) == Val(lhs[..i]) * Val(rhs) + Weight(i) * lhs[i] * Val(rhs);
    }
    Whole(lhs);
    WideBound(lhs, rhs);
    limbs := CarryColumns(columns);
  }

  lemma ZeroColumns(columns: seq<nat>)
    requires forall k :: 0 <= k < |columns| ==> columns[k] == 0
    ensures Val(columns) == 0
  {
    ValZeros(|columns|);
    assert columns == seq(|columns|, _ => 0);
  }

  lemma WideBound(lhs: seq<nat>, rhs: seq<nat>)
    requires IsLimbs(lhs, LIMBS) && IsLimbs(rhs, LIMBS)
    ensures Val(lhs) * Val(rhs) < Weight(2 * LIMBS)
  {
    hide Val, Weight;
    ValBound(lhs);
    ValBound(rhs);
    WeightSum(LIMBS, LIMBS);
    ProductFits(Weight(LIMBS), Val(lhs), Val(rhs));
  }

  lemma ProductFits(w: nat, a: nat, b: nat)
    requires a < w && b < w
    ensures a * b < w * w
  {
    MulMono(a, w, b);
    MulMono2(w, b, w - 1);
    assert w * (w - 1) == w * w - w;
  }

  // ── Selection ────────────────────────────────────────────────────────────

  function NotBitOf(x: Felt): (r: Felt)
    ensures x <= 1 ==> r == 1 - x
  {
    Add(1, Neg(x))
  }

  lemma SelectDigit(bit: Felt, one: Felt, zero: Felt)
    requires bit <= 1
    ensures Add(Mul(bit, one), Mul(Add(1, Neg(bit)), zero)) == if bit == 1 then one else zero
  {
    NotBit(bit);
    ByBit(one);
    ByBit(zero);
    hide Mul;
  }

  lemma ByBit(x: Felt)
    ensures Mul(1, x) == x && Mul(0, x) == 0
  {
  }

  method SelectLimbs(bit: Felt, ifOne: seq<Felt>, ifZero: seq<Felt>) returns (result: seq<Felt>)
    requires bit <= 1 && |ifOne| == |ifZero| == LIMBS
    ensures result == if bit == 1 then ifOne else ifZero
  {
    hide Add, Mul, Neg;
    var oneMinusBit := Add(1, Neg(bit));
    result := seq(LIMBS, _ => 0);
    for i := 0 to LIMBS
      invariant |result| == LIMBS
      invariant forall j :: 0 <= j < i ==> result[j] == if bit == 1 then ifOne[j] else ifZero[j]
    {
      SelectDigit(bit, ifOne[i], ifZero[i]);
      result := result[i := Add(Mul(bit, ifOne[i]), Mul(oneMinusBit, ifZero[i]))];
    }
  }
}
