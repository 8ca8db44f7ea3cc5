/** Radix decomposition (`to_radix.rs`): the run-time loop that stores digits to
    memory, and the unrolled one that returns them. */
module ToRadix {
  import opened Felts
  import opened ModArith

  // ── Digits ───────────────────────────────────────────────────────────────

  /** The `n` lowest digits, least significant first. */
  function Digits(v: nat, radix: nat, n: nat): (d: seq<nat>)
    requires radix > 0
    ensures |d| == n
  {
    if n == 0 then [] else
    (QuotientSmall(v, radix);
    [v % radix] + Digits(v / radix, radix, n - 1))
  }

  /** What the `n` lowest digits leave. */
  function Remaining(v: nat, radix: nat, n: nat): nat
    requires radix > 0
  {
    if n == 0 then v else
    (QuotientSmall(v, radix);
    Remaining(v / radix, radix, n - 1))
  }

  function DigitsValue(d: seq<nat>, radix: nat): nat {
    if d == [] then 0 else d[0] + radix * DigitsValue(d[1..], radix)
  }

  lemma {:induction false} DigitsExact(v: nat, radix: nat, n: nat)
    requires radix > 0
    ensures v == DigitsValue(Digits(v, radix, n), radix) + Pow(radix, n) * Remaining(v, radix, n)
    ensures forall i :: 0 <= i < n ==> Digits(v, radix, n)[i] < radix
    decreases n
  {
    if n > 0 {
      QuotientSmall(v, radix);
      var q := v / radix;
      DigitsExact(q, radix, n - 1);
      var d := Digits(v, radix, n);
      assert d[1..] == Digits(q, radix, n - 1);
      NextDigit(v, radix, q, v % radix, DigitsValue(d[1..], radix), Pow(radix, n - 1), Remaining(q, radix, n - 1));
    }
  }

  lemma NextDigit(v: nat, radix: nat, q: nat, digit: nat, value: nat, p: int, rest: nat)
    requires v == radix * q + digit && q == value + p * rest
    ensures v == digit + radix * value + (radix * p) * rest
  {
    assert radix * (value + p * rest) == radix * value + radix * (p * rest);
    assert radix * (p * rest) == (radix * p) * rest;
  }

  lemma {:induction false} DigitsBound(d: seq<nat>, radix: nat)
    requires radix > 0 && forall i :: 0 <= i < |d| ==> d[i] < radix
    ensures DigitsValue(d, radix) < Pow(radix, |d|)
    decreases |d|
  {
    if d != [] {
      DigitsBound(d[1..], radix);
      var v, p := DigitsValue(d[1..], radix), Pow(radix, |d| - 1);
      MulMono2(radix, v + 1, p);
      assert radix * (v + 1) == radix * v + radix;
    }
  }

  lemma {:induction false} RemainingSmall(v: nat, radix: nat, n: nat)
    requires radix > 0
    ensures Pow(radix, n) > 0
    ensures Remaining(v, radix, n) == 0 <==> v < Pow(radix, n)
  {
    DigitsExact(v, radix, n);
    var d := Digits(v, radix, n);
    DigitsBound(d, radix);
    var p, r := Pow(radix, n), Remaining(v, radix, n);
    if r == 0 {
      assert p * r == 0;
    } else {
      MulMono2(p, 1, r);
    }
  }

  /** Nothing is left exactly when the number fits, and then the weighted digits
      are the number. */
  lemma DigitsRoundTrip(v: nat, radix: nat, n: nat)
    requires radix > 0
    ensures Remaining(v, radix, n) == 0 <==> v < Pow(radix, n)
    ensures v < Pow(radix, n) ==> DigitsValue(Digits(v, radix, n), radix) == v
  {
    DigitsExact(v, radix, n);
    RemainingSmall(v, radix, n);
  }

  lemma {:induction false} RemainingNext(v: nat, radix: nat, n: nat)
    requires radix > 0
    ensures Remaining(v, radix, n + 1) == Remaining(v, radix, n) / radix
    ensures Digits(v, radix, n + 1) == Digits(v, radix, n) + [Remaining(v, radix, n) % radix]
    decreases n
  {
    QuotientSmall(v, radix);
    if n > 0 {
      RemainingNext(v / radix, radix, n - 1);
    } else {
      assert Digits(v / radix, radix, 0) == [];
    }
  }

  // ── The unrolled form ────────────────────────────────────────────────────

  /** Peels the digits least significant first; `fits` is the final assertion. */
  method EmitLimbDecomp(input: Felt, radix: Felt, numLimbs: nat) returns (limbs: seq<Felt>, fits: bool)
    requires radix > 0
    ensures limbs == Digits(input, radix, numLimbs)
    ensures fits <==> input < Pow(radix, numLimbs)
  {
    limbs := [];
    var working: Felt := input;
    for i := 0 to numLimbs
      invariant limbs == Digits(input, radix, i) && working == Remaining(input, radix, i)
    {
      RemainingNext(input, radix, i);
      var quot := UintDiv(working, radix);
      var limb := UMod(working, radix);
      limbs := limbs + [limb];
      working := quot;
    }
    RemainingSmall(input, radix, numLimbs);
    fits := working == 0;
  }

  // ── The run-time loop ────────────────────────────────────────────────────

  class Ram {
    var cells: map<nat, Felt>

    constructor ()
      ensures cells == map[]
    {
      cells := map[];
    }

    function Load(address: nat): Felt
      reads this
    {
      if address in cells then cells[address] else 0
    }

    method Store(address: nat, v: Felt)
      modifies this
      ensures Load(address) == v
      ensures forall a: nat :: a != address ==> Load(a) == old(Load(a))
    {
      cells := cells[address := v];
    }
  }

  /** Stores the digits from the last cell down to the first and returns what is
      left of the input. `byZero` is the quotient and the remainder the target
      yields for a division by zero. */
  method EmitDecompDynamic(ram: Ram, input: Felt, radix: Felt, numLimbs: nat, basePtr: nat, byZero: Felt -> (Felt, Felt))
    returns (working: Felt)
    modifies ram
    ensures radix > 0 ==> working == Remaining(input, radix, numLimbs)
    ensures radix > 0 ==> forall a: nat :: basePtr <= a < basePtr + numLimbs ==>
              ram.Load(a) == Digits(input, radix, numLimbs)[basePtr + numLimbs - 1 - a]
    ensures forall a: nat :: !(basePtr <= a < basePtr + numLimbs) ==> ram.Load(a) == old(ram.Load(a))
  {
    hide Digits, Remaining;
    working := input;
    if radix > 0 {
      StartDigits(input, radix, numLimbs);
    }
    var i := 0;
    while i < numLimbs
      invariant 0 <= i <= numLimbs && (radix > 0 ==> working == Remaining(input, radix, i))
      invariant radix > 0 ==> forall a: nat :: basePtr + numLimbs - i <= a < basePtr + numLimbs ==>
        ram.Load(a) == Digits(input, radix, numLimbs)[basePtr + numLimbs - 1 - a]
      invariant forall a: nat :: !(basePtr + numLimbs - i <= a < basePtr + numLimbs) ==> ram.Load(a) == old(ram.Load(a))
    {
      if radix > 0 {
        DigitIs(input, radix, numLimbs, i);
        RemainingNext(input, radix, i);
      }
      var limb := if radix > 0 then UMod(working, radix) else byZero(working).1;
      var quot := if radix > 0 then UintDiv(working, radix) else byZero(working).0;
      var offset := numLimbs - 1 - i;
      ram.Store(basePtr + offset, limb);
      i := i + 1;
      working := quot;
    }
  }

  lemma StartDigits(v: nat, radix: nat, n: nat)
    requires radix > 0
    ensures Remaining(v, radix, 0) == v
  {
  }

  lemma {:induction false} DigitIs(v: nat, radix: nat, n: nat, i: nat)
    requires radix > 0 && i < n
    ensures Digits(v, radix, n)[i] == Remaining(v, radix, i) % radix
    decreases i
  {
    QuotientSmall(v, radix);
    if i > 0 {
      DigitIs(v / radix, radix, n - 1, i - 1);
    }
  }

  /** `ToRadix`: passes when the radix is 2 for binary output and the input fits;
      the stored digits are those of the unrolled form, reversed, and no other
      cell changes. */
  method EmitToRadix(ram: Ram, input: Felt, radix: Felt, outputPointer: nat, numLimbs: nat, outputBits: Felt, byZero: Felt -> (Felt, Felt))
    returns (passes: bool)
    modifies ram
    ensures passes ==> outputBits == 0 || (outputBits == 1 && radix == 2)
    ensures radix > 0 ==> (passes <==> (outputBits == 0 || (outputBits == 1 && radix == 2)) && input < Pow(radix, numLimbs))
    ensures radix > 0 ==> forall a: nat :: outputPointer <= a < outputPointer + numLimbs ==>
              ram.Load(a) == Digits(input, radix, numLimbs)[outputPointer + numLimbs - 1 - a]
    ensures radix > 0 && passes ==> DigitsValue(Digits(input, radix, numLimbs), radix) == input
    ensures forall a: nat :: !(outputPointer <= a < outputPointer + numLimbs) ==> ram.Load(a) == old(ram.Load(a))
  {
    var radixIsTwo: Felt := if radix == 2 then 1 else 0;
    var radixWhenBinary := outputBits <= radixIsTwo;
    var working := EmitDecompDynamic(ram, input, radix, numLimbs, outputPointer, byZero);
    if radix > 0 {
      DigitsRoundTrip(input, radix, numLimbs);
    }
    passes := radixWhenBinary && working == 0;
  }
}
