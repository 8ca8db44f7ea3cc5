/** Integer operations of Brillig on field elements (`translator.rs`): results are
    masked to the width, and 128-bit products are built from 64-bit halves. */
module IntOps {
  import opened Felts
  import opened PowersOfTwo

  datatype IntegerBitSize = U1 | U8 | U16 | U32 | U64 | U128

  function Width(size: IntegerBitSize): nat {
    match size
    case U1 => 1
    case U8 => 8
    case U16 => 16
    case U32 => 32
    case U64 => 64
    case U128 => 128
  }

  datatype BinaryIntOp = OpAdd | OpSub | OpMul | OpDiv | OpEquals | OpLessThan | OpLessThanEquals | OpAnd | OpOr | OpXor | OpShr | OpShl

  // ── Bits of the representative ───────────────────────────────────────────

  /** Combines two numbers bit by bit. */
  function Bitwise(f: (bool, bool) -> bool, a: nat, b: nat): nat
    decreases a + b
  {
    if a == 0 && b == 0 then 0
    else (if f(a % 2 == 1, b % 2 == 1) then 1 else 0) + 2 * Bitwise(f, a / 2, b / 2)
  }

  const CONJUNCTION: (bool, bool) -> bool := (x, y) => x && y
  const DISJUNCTION: (bool, bool) -> bool := (x, y) => x || y
  const DIFFERENCE: (bool, bool) -> bool := (x, y) => x != y

  lemma {:induction false} BitwiseFits(f: (bool, bool) -> bool, a: nat, b: nat, n: nat)
    requires a < Two(n) && b < Two(n)
    ensures Bitwise(f, a, b) < Two(n)
    decreases n
  {
    if n > 0 && (a > 0 || b > 0) {
      BitwiseFits(f, a / 2, b / 2, n - 1);
    }
  }

  lemma {:induction false} AndBelow(a: nat, b: nat)
    ensures Bitwise(CONJUNCTION, a, b) <= a
    decreases a + b
  {
    if a > 0 || b > 0 {
      AndBelow(a / 2, b / 2);
    }
  }

  /** And with `2^n - 1` is the remainder modulo `2^n`. */
  lemma {:induction false} MaskIsMod(a: nat, n: nat)
    ensures Bitwise(CONJUNCTION, a, Two(n) - 1) == a % Two(n)
    decreases n
  {
    hide Two, Bitwise;
    if n == 0 {
      TwoZero();
      AndZero(a);
    } else {
      TwoStep(n);
      AndOdd(a, Two(n - 1) - 1);
      MaskIsMod(a / 2, n - 1);
      LowBit(a, Two(n - 1));
    }
  }

  lemma AndOdd(a: nat, k: nat)
    ensures Bitwise(CONJUNCTION, a, 2 * k + 1) == a % 2 + 2 * Bitwise(CONJUNCTION, a / 2, k)
  {
    assert (2 * k + 1) / 2 == k && (2 * k + 1) % 2 == 1;
  }

  lemma LowBit(a: nat, p: nat)
    requires p > 0
    ensures a % (2 * p) == a % 2 + 2 * ((a / 2) % p)
  {
    var q, r := (a / 2) / p, (a / 2) % p;
    QuotientSmall(a / 2, p);
    assert a == 2 * (p * q + r) + a % 2;
    assert 2 * (p * q) == (2 * p) * q;
    DivModUnique(a, 2 * p, q, a % 2 + 2 * r);
  }

  lemma {:induction false} AndZero(a: nat)
    ensures Bitwise(CONJUNCTION, a, 0) == 0 && a % Two(0) == 0
    decreases a
  {
    if a > 0 {
      AndZero(a / 2);
    }
  }

  // ── Field operations on representatives ──────────────────────────────────

  function BitAnd(a: Felt, b: Felt): Felt {
    AndBelow(a, b);
    Bitwise(CONJUNCTION, a, b)
  }

  function ShiftRight(a: Felt, k: Felt): Felt {
    QuotientSmall(a, Two(k));
    a / Two(k)
  }

  /** What the target yields for a shift that reaches the prime is `other`. */
  function ShiftLeft(a: Felt, k: Felt, other: Felt): Felt {
    if a * Two(k) < PRIME then a * Two(k) else other
  }

  function Sub(a: Felt, b: Felt): Felt {
    Add(a, Neg(b))
  }

  /** `mask_for`: `2^n - 1`. */
  function MaskFor(size: IntegerBitSize): Felt {
    PowersFit(Width(size));
    Two(Width(size)) - 1
  }

  function Pow2(size: IntegerBitSize): Felt {
    PowersFit(Width(size));
    Two(Width(size))
  }

  /** The masks of the widths. */
  lemma Masks()
    ensures MaskFor(U1) == 0x1 && MaskFor(U8) == 0xFF && MaskFor(U16) == 0xFFFF && MaskFor(U32) == 0xFFFF_FFFF
    ensures MaskFor(U64) == 0xFFFF_FFFF_FFFF_FFFF && MaskFor(U128) == 0xFFFF_FFFF_FFFF_FFFF_FFFF_FFFF_FFFF_FFFF
  {
    SmallPowers();
    LimbPowers();
    LargePowers();
    hide Two;
  }

  function EmitMask(value: Felt, size: IntegerBitSize): (r: Felt)
    ensures r == value % Two(Width(size))
  {
    MaskIsMod(value, Width(size));
    BitAnd(value, MaskFor(size))
  }

  // ── The operations ───────────────────────────────────────────────────────

  predicate InWidth(size: IntegerBitSize, a: Felt) {
    a < Two(Width(size))
  }

  /** Where the value of the emitted operation does not depend on the target:
      divisors are not zero and left shifts stay below the prime. */
  predicate Defined(op: BinaryIntOp, a: nat, b: nat) {
    (op.OpDiv? ==> b != 0) && (op.OpShl? ==> a * Two(b) < PRIME)
  }

  /** Arithmetic modulo `2^n`, comparisons as 0 and 1. */
  function Result(op: BinaryIntOp, size: IntegerBitSize, a: nat, b: nat): int
    requires Defined(op, a, b)
  {
    var m := Two(Width(size));
    match op
    case OpAdd => (a + b) % m
    case OpSub => (a - b) % m
    case OpMul => (a * b) % m
    case OpDiv => a / b
    case OpEquals => if a == b then 1 else 0
    case OpLessThan => if a < b then 1 else 0
    case OpLessThanEquals => if a <= b then 1 else 0
    case OpAnd => Bitwise(CONJUNCTION, a, b)
    case OpOr => Bitwise(DISJUNCTION, a, b)
    case OpXor => Bitwise(DIFFERENCE, a, b)
    case OpShr => a / Two(b)
    case OpShl => (a * Two(b)) % m
  }

  // ── What the operations mean, bit by bit ─────────────────────────────────

  predicate Bit(v: nat, i: nat) {
    (v / Two(i)) % 2 == 1
  }

  /** A bit above the lowest is one of half the number. */
  lemma BitOfHalf(v: nat, i: nat)
    requires i > 0
    ensures Bit(v, i) <==> Bit(v / 2, i - 1)
  {
    ShiftStep(v, 2, Two(i - 1));
    assert Two(i) == Two(i - 1) * 2;
  }

  lemma LowestBit(v: nat)
    ensures Bit(v, 0) <==> v % 2 == 1
  {
    assert Two(0) == 1;
  }

  /** Every bit of the combination is the combination of the bits. */
  lemma {:induction false} BitwiseAt(f: (bool, bool) -> bool, a: nat, b: nat, i: nat)
    requires !f(false, false)
    ensures Bit(Bitwise(f, a, b), i) <==> f(Bit(a, i), Bit(b, i))
    decreases i
  {
    hide Bit;
    var v := Bitwise(f, a, b);
    assert v % 2 == 1 <==> f(a % 2 == 1, b % 2 == 1);
    assert v / 2 == Bitwise(f, a / 2, b / 2);
    if i == 0 {
      LowestBit(a);
      LowestBit(b);
      LowestBit(v);
    } else {
      BitOfHalf(a, i);
      BitOfHalf(b, i);
      BitOfHalf(v, i);
      BitwiseAt(f, a / 2, b / 2, i - 1);
    }
  }

  /** Conjunction, disjunction and difference of every pair of bits. */
  lemma BitsOfResults(size: IntegerBitSize, a: nat, b: nat, i: nat)
    ensures Bit(Result(OpAnd, size, a, b), i) <==> Bit(a, i) && Bit(b, i)
    ensures Bit(Result(OpOr, size, a, b), i) <==> Bit(a, i) || Bit(b, i)
    ensures Bit(Result(OpXor, size, a, b), i) <==> Bit(a, i) != Bit(b, i)
  {
    BitwiseAt(CONJUNCTION, a, b, i);
    BitwiseAt(DISJUNCTION, a, b, i);
    BitwiseAt(DIFFERENCE, a, b, i);
  }

  lemma {:induction false} BitwiseSums(a: nat, b: nat)
    ensures Bitwise(DIFFERENCE, a, b) + 2 * Bitwise(CONJUNCTION, a, b) == a + b
    ensures Bitwise(DISJUNCTION, a, b) + Bitwise(CONJUNCTION, a, b) == a + b
    decreases a + b
  {
    if a > 0 || b > 0 {
      BitwiseSums(a / 2, b / 2);
    }
  }

  /** Adding without carries, the carries, and their sum. */
  lemma SumsOfResults(size: IntegerBitSize, a: nat, b: nat)
    ensures Result(OpXor, size, a, b) + 2 * Result(OpAnd, size, a, b) == a + b
    ensures Result(OpOr, size, a, b) + Result(OpAnd, size, a, b) == a + b
  {
    BitwiseSums(a, b);
  }

  /** Of the three orders exactly one holds, and the smaller operand is the one the
      other exceeds. */
  lemma ComparisonsOfResults(size: IntegerBitSize, a: Felt, b: Felt)
    requires InWidth(size, a) && InWidth(size, b)
    ensures Result(OpLessThan, size, a, b) + Result(OpEquals, size, a, b) + Result(OpLessThan, size, b, a) == 1
    ensures Result(OpLessThanEquals, size, a, b) == Result(OpLessThan, size, a, b) + Result(OpEquals, size, a, b)
    ensures Result(OpEquals, size, a, b) == 1 ==> Result(OpSub, size, a, b) == 0
    ensures Result(OpLessThan, size, a, b) == 1 ==> Result(OpSub, size, b, a) > 0 && a + Result(OpSub, size, b, a) == b
  {
    hide Two, Bitwise;
    if a <= b {
      DivModUnique(b - a, Two(Width(size)), 0, b - a);
    }
  }

  // ── The emitted operations ───────────────────────────────────────────────

  function Halves(a: Felt): (Felt, Felt) {
    (BitAnd(a, MaskFor(U64)), ShiftRight(a, 64))
  }

  lemma HalvesAre(a: Felt)
    requires InWidth(U128, a)
    ensures var (lo, hi) := Halves(a);
            a == lo + Two(64) * hi && lo < Two(64) && hi < Two(64)
  {
    HalvesByDivision(a);
    TwoSum(64, 64);
    WideIs(a);
    hide *;
    HighHalf(a, Two(64));
  }

  lemma WideIs(a: Felt)
    requires InWidth(U128, a)
    ensures a < Two(128)
  {
  }

  /** The low half is a remainder, the high half a quotient. */
  lemma HalvesByDivision(a: Felt)
    ensures Halves(a) == (a % Two(64), a / Two(64))
  {
    hide Two, Bitwise, ShiftRight;
    MaskIsMod(a, 64);
    ShiftIsQuotient(a);
  }

  lemma ShiftIsQuotient(a: Felt)
    ensures ShiftRight(a, 64) == a / Two(64)
  {
  }

  lemma HighHalf(a: nat, w: nat)
    requires w > 0 && a < w * w
    ensures a == a % w + w * (a / w) && a % w < w && a / w < w
  {
    QuotientSmall(a, w);
    if a / w >= w {
      MulMono2(w, w, a / w);
    }
  }

  /** The 128-bit product: the high cross term is dropped, the rest stays below
      the prime until it is masked. */
  method EmitU128Mul(lhs: Felt, rhs: Felt) returns (r: Felt)
    requires InWidth(U128, lhs) && InWidth(U128, rhs)
    ensures r == (lhs * rhs) % Two(128)
  {
    hide Add, Mul, Two, BitAnd;
    HalvesAre(lhs);
    HalvesAre(rhs);
    LimbPowers();
    var (aLo, aHi) := Halves(lhs);
    var (bLo, bHi) := Halves(rhs);
    HalfProduct(aLo, bLo);
    HalfProduct(aHi, bLo);
    HalfProduct(aLo, bHi);
    var lo := Mul(aLo, bLo);
    var crossA := Mul(aHi, bLo);
    var crossB := Mul(aLo, bHi);
    AddExact(crossA, crossB);
    var cross := Add(crossA, crossB);
    MulExact(cross, Pow2(U64));
    var crossShifted := Mul(cross, Pow2(U64));
    AddExact(lo, crossShifted);
    var raw := Add(lo, crossShifted);
    LowProduct(aLo, aHi, bLo, bHi);
    r := EmitMask(raw, U128);
  }

  lemma HalfProduct(a: Felt, b: Felt)
    requires a < 0x1_0000_0000_0000_0000 && b < 0x1_0000_0000_0000_0000
    ensures a * b <= 0xFFFF_FFFF_FFFF_FFFF * 0xFFFF_FFFF_FFFF_FFFF && Mul(a, b) == a * b
  {
    MulMono(a, 0xFFFF_FFFF_FFFF_FFFF, b);
    MulMono2(0xFFFF_FFFF_FFFF_FFFF, b, 0xFFFF_FFFF_FFFF_FFFF);
    MulExact(a, b);
  }

  /** Modulo `2^128` the product of the high halves does not matter. */
  lemma LowProduct(aLo: nat, aHi: nat, bLo: nat, bHi: nat)
    ensures ((aLo + Two(64) * aHi) * (bLo + Two(64) * bHi)) % Two(128)
         == (aLo * bLo + (aHi * bLo + aLo * bHi) * Two(64)) % Two(128)
  {
    hide Two;
    TwoSum(64, 64);
    DropHighProduct(aLo, aHi, bLo, bHi, Two(64));
  }

  lemma DropHighProduct(a: nat, b: nat, c: nat, d: nat, w: nat)
    requires w > 0
    ensures w * w > 0
    ensures ((a + w * b) * (c + w * d)) % (w * w) == (a * c + (b * c + a * d) * w) % (w * w)
  {
    Foil(a, b, c, d, w);
    MulMono(1, w, w);
    DropMultiple(a * c + (b * c + a * d) * w, w * w, b * d);
  }

  lemma Foil(a: nat, b: nat, c: nat, d: nat, w: nat)
    ensures (a + w * b) * (c + w * d) == (a * c + (b * c + a * d) * w) + (w * w) * (b * d)
  {
    calc {
      (a + w * b) * (c + w * d);
      a * (c + w * d) + (w * b) * (c + w * d);
      a * c + a * (w * d) + (w * b) * c + (w * b) * (w * d);
      { assert a * (w * d) == a * d * w && (w * b) * c == b * c * w && (w * b) * (w * d) == (w * w) * (b * d); }
      a * c + a * d * w + b * c * w + (w * w) * (b * d);
    }
  }

  lemma DropMultiple(x: nat, m: nat, k: nat)
    requires m > 0
    ensures (x + m * k) % m == x % m
  {
    QuotientSmall(x, m);
    assert x + m * k == m * (x / m + k) + x % m;
    DivModUnique(x + m * k, m, x / m + k, x % m);
  }

  /** Sums, differences, short products and left shifts before masking: exact in
      the field, and right modulo the width. */
  method EmitRaw(op: BinaryIntOp, size: IntegerBitSize, lhs: Felt, rhs: Felt, other: Felt) returns (raw: Felt)
    requires op.OpAdd? || op.OpSub? || (op.OpMul? && size != U128) || op.OpShl?
    requires InWidth(size, lhs) && InWidth(size, rhs)
    ensures Defined(op, lhs, rhs) ==> raw % Two(Width(size)) == Result(op, size, lhs, rhs)
  {
    hide Add, Mul, Neg, Two, Bitwise;
    WidthFits(size);
    match op {
      case OpAdd =>
        AddExact(lhs, rhs);
        raw := Add(lhs, rhs);
      case OpSub =>
        AddExact(lhs, Pow2(size));
        var shifted := Add(lhs, Pow2(size));
        SubExact(shifted, rhs);
        raw := Sub(shifted, rhs);
        ShiftedDifference(lhs, rhs, Two(Width(size)));
      case OpMul =>
        ShortProduct(size, lhs, rhs);
        raw := Mul(lhs, rhs);
      case OpShl =>
        raw := ShiftLeft(lhs, rhs, other);
    }
  }

  /** Operations whose result needs no mask. */
  method EmitUnmasked(op: BinaryIntOp, size: IntegerBitSize, lhs: Felt, rhs: Felt, other: Felt) returns (r: Felt)
    requires !op.OpAdd? && !op.OpSub? && !op.OpMul? && !op.OpShl?
    requires InWidth(size, lhs) && InWidth(size, rhs)
    ensures Defined(op, lhs, rhs) ==> r == Result(op, size, lhs, rhs) && InWidth(size, r)
  {
    hide Two, Bitwise;
    WidthFits(size);
    match op {
      case OpDiv =>
        if rhs == 0 {
          r := other;
        } else {
          QuotientSmall(lhs, rhs);
          r := UintDiv(lhs, rhs);
        }
      case OpEquals =>
        r := if lhs == rhs then 1 else 0;
      case OpLessThan =>
        r := if lhs < rhs then 1 else 0;
      case OpLessThanEquals =>
        r := if lhs <= rhs then 1 else 0;
      case OpAnd =>
        BitwiseFits(CONJUNCTION, lhs, rhs, Width(size));
        r := BitAnd(lhs, rhs);
      case OpOr =>
        BitwiseFits(DISJUNCTION, lhs, rhs, Width(size));
        r := Bitwise(DISJUNCTION, lhs, rhs);
      case OpXor =>
        BitwiseFits(DIFFERENCE, lhs, rhs, Width(size));
        r := Bitwise(DIFFERENCE, lhs, rhs);
      case OpShr =>
        QuotientSmall(lhs, Two(rhs));
        r := ShiftRight(lhs, rhs);
    }
  }

  /** `other` is what the target yields for an operation that is not defined. */
  method EmitBinaryIntOp(op: BinaryIntOp, size: IntegerBitSize, lhs: Felt, rhs: Felt, other: Felt) returns (r: Felt)
    requires InWidth(size, lhs) && InWidth(size, rhs)
    ensures Defined(op, lhs, rhs) ==> r == Result(op, size, lhs, rhs) && InWidth(size, r)
  {
    hide Two, Bitwise, Defined;
    if op.OpMul? && size == U128 {
      r := EmitU128Mul(lhs, rhs);
      ModFits(lhs * rhs, size);
    } else if op.OpAdd? || op.OpSub? || op.OpMul? || op.OpShl? {
      var raw := EmitRaw(op, size, lhs, rhs, other);
      ModFits(raw, size);
      r := EmitMask(raw, size);
    } else {
      r := EmitUnmasked(op, size, lhs, rhs, other);
    }
  }

  /** A left shift by less than the width is defined up to 64 bits, and for 128
      bits by up to 125. */
  lemma ShiftDefined(size: IntegerBitSize, a: Felt, b: Felt)
    requires InWidth(size, a) && Width(size) + b <= 253
    ensures Defined(OpShl, a, b)
  {
    PowersFit(Width(size) + b);
    TwoSum(Width(size), b);
    MulMono(a, Two(Width(size)), Two(b));
  }

  lemma WidthFits(size: IntegerBitSize)
    ensures 2 <= Two(Width(size)) <= 0x1_00000000_00000000_00000000_00000000
  {
    hide Two;
    LargePowers();
    SmallPowers();
    TwoGrows(1, Width(size));
    TwoGrows(Width(size), 128);
  }

  lemma ModFits(v: nat, size: IntegerBitSize)
    ensures v % Two(Width(size)) < Two(Width(size))
  {
  }

  lemma ShiftedDifference(a: nat, b: nat, m: nat)
    requires a < m && b < m
    ensures (a + m - b) % m == (a - b) % m
  {
    if a < b {
      DivModUnique(a - b, m, -1, a - b + m);
      DivModUnique(a + m - b, m, 0, a + m - b);
    } else {
      DivModUnique(a - b, m, 0, a - b);
      DivModUnique(a + m - b, m, 1, a - b);
    }
  }

  lemma ShortProduct(size: IntegerBitSize, a: Felt, b: Felt)
    requires InWidth(size, a) && InWidth(size, b) && size != U128
    ensures Mul(a, b) == a * b
  {
    LimbPowers();
    SmallPowers();
    HalfProduct(a, b);
  }
}
