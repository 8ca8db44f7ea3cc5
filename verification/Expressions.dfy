/** Expressions of the constraint system and how their values are emitted
    (`common.rs`). */
module Expressions {
  import opened Graphs
  import opened Felts
  import opened ModArith
  import opened BlockWriters

  datatype MulTerm = MulTerm(coeff: Felt, left: nat, right: nat)

  datatype LinearTerm = LinearTerm(coeff: Felt, wit: nat)

  datatype Expression = Expression(mulTerms: seq<MulTerm>, linear: seq<LinearTerm>, constant: Felt)

  datatype TranslationError =
    | NonLinearUnknown(wit: nat)
    | UnconstrainedUnknown(wit: nat)
    | UnsolvableWitness(numUnknowns: nat, index: nat)
    | UnsupportedOpcode(reason: string)

  type Translated<+T> = Result<T, TranslationError>

  function Witnesses(e: Expression): set<nat> {
    (set i | 0 <= i < |e.mulTerms| :: e.mulTerms[i].left)
    + (set i | 0 <= i < |e.mulTerms| :: e.mulTerms[i].right)
    + (set i | 0 <= i < |e.linear| :: e.linear[i].wit)
  }

  // ── Values ───────────────────────────────────────────────────────────────

  /** The value of a product that does not mention the skipped witness. */
  function MulRest(t: MulTerm, skip: Option<nat>, a: Assignment): int {
    if skip == Some(t.left) || skip == Some(t.right) then 0 else t.coeff * (At(a, t.left) * At(a, t.right))
  }

  /** The factor of the skipped witness in a product that mentions it once. */
  function MulFactor(t: MulTerm, skip: Option<nat>, a: Assignment): int {
    if skip == Some(t.left) && skip == Some(t.right) then 0
    else if skip == Some(t.left) then t.coeff * At(a, t.right)
    else if skip == Some(t.right) then t.coeff * At(a, t.left)
    else 0
  }

  function MulRestSum(ts: seq<MulTerm>, skip: Option<nat>, a: Assignment): int {
    if ts == [] then 0 else MulRestSum(ts[..|ts| - 1], skip, a) + MulRest(ts[|ts| - 1], skip, a)
  }

  function MulFactorSum(ts: seq<MulTerm>, skip: Option<nat>, a: Assignment): int {
    if ts == [] then 0 else MulFactorSum(ts[..|ts| - 1], skip, a) + MulFactor(ts[|ts| - 1], skip, a)
  }

  function LinearRestSum(ts: seq<LinearTerm>, skip: Option<nat>, a: Assignment): int {
    if ts == [] then 0
    else
      var t := ts[|ts| - 1];
      LinearRestSum(ts[..|ts| - 1], skip, a) + (if skip == Some(t.wit) then 0 else t.coeff * At(a, t.wit))
  }

  function LinearFactorSum(ts: seq<LinearTerm>, skip: Option<nat>): int {
    if ts == [] then 0
    else
      var t := ts[|ts| - 1];
      LinearFactorSum(ts[..|ts| - 1], skip) + (if skip == Some(t.wit) then t.coeff else 0)
  }

  /** The expression without the skipped witness, and the factor of the latter. */
  function Rest(e: Expression, skip: Option<nat>, a: Assignment): int {
    MulRestSum(e.mulTerms, skip, a) + LinearRestSum(e.linear, skip, a) + e.constant
  }

  function Factor(e: Expression, skip: Option<nat>, a: Assignment): int {
    MulFactorSum(e.mulTerms, skip, a) + LinearFactorSum(e.linear, skip)
  }

  function Eval(e: Expression, a: Assignment): int {
    Rest(e, None, a)
  }

  ghost predicate Holds(e: Expression, a: Assignment) {
    Cong(Eval(e, a), 0, PRIME)
  }

  /** Some product squares the skipped witness. */
  ghost predicate SquareIn(ts: seq<MulTerm>, skip: Option<nat>) {
    exists i :: 0 <= i < |ts| && ts[i].coeff != 0 && skip == Some(ts[i].left) && skip == Some(ts[i].right)
  }

  lemma TermSplit(t: MulTerm, u: nat, a: Assignment)
    requires !(t.coeff != 0 && t.left == u && t.right == u)
    ensures MulRest(t, None, a) == MulRest(t, Some(u), a) + MulFactor(t, Some(u), a) * At(a, u)
  {
    hide At;
    Regrouped(t.coeff, At(a, t.left), At(a, t.right));
  }

  lemma Regrouped(c: int, l: int, r: int)
    ensures c * (l * r) == c * l * r && c * (l * r) == c * r * l
    ensures c == 0 ==> c * (l * r) == 0
  {
  }

  lemma {:induction false} MulSplit(ts: seq<MulTerm>, u: nat, a: Assignment)
    requires forall i :: 0 <= i < |ts| ==> !(ts[i].coeff != 0 && ts[i].left == u && ts[i].right == u)
    ensures MulRestSum(ts, None, a) == MulRestSum(ts, Some(u), a) + MulFactorSum(ts, Some(u), a) * At(a, u)
    decreases |ts|
  {
    if ts != [] {
      hide MulRest, MulFactor, At;
      var t := ts[|ts| - 1];
      MulSplit(ts[..|ts| - 1], u, a);
      TermSplit(t, u, a);
      DistributeLeft(MulFactorSum(ts[..|ts| - 1], Some(u), a), MulFactor(t, Some(u), a), At(a, u));
    }
  }

  lemma DistributeLeft(f: int, g: int, v: int)
    ensures (f + g) * v == f * v + g * v
  {
  }

  lemma {:induction false} LinearSplit(ts: seq<LinearTerm>, u: nat, a: Assignment)
    ensures LinearRestSum(ts, None, a) == LinearRestSum(ts, Some(u), a) + LinearFactorSum(ts, Some(u)) * At(a, u)
    decreases |ts|
  {
    if ts != [] {
      LinearSplit(ts[..|ts| - 1], u, a);
      var t, v := ts[|ts| - 1], At(a, u);
      var f := LinearFactorSum(ts[..|ts| - 1], Some(u));
      var d := if t.wit == u then t.coeff else 0;
      assert (f + d) * v == f * v + d * v;
    }
  }

  /** The expression is linear in a witness it does not square. */
  lemma Split(e: Expression, u: nat, a: Assignment)
    requires !SquareIn(e.mulTerms, Some(u))
    ensures Eval(e, a) == Rest(e, Some(u), a) + Factor(e, Some(u), a) * At(a, u)
  {
    MulSplit(e.mulTerms, u, a);
    LinearSplit(e.linear, u, a);
    hide MulRestSum, MulFactorSum, LinearRestSum, LinearFactorSum, At;
    DistributeLeft(MulFactorSum(e.mulTerms, Some(u), a), LinearFactorSum(e.linear, Some(u)), At(a, u));
  }

  /** Two assignments that agree on the other witnesses give the same parts. */
  ghost predicate AgreeOff(e: Expression, skip: Option<nat>, a: Assignment, b: Assignment) {
    forall w :: w in Witnesses(e) && skip != Some(w) ==> At(a, w) == At(b, w)
  }

  lemma {:induction false} MulSumsAgree(ts: seq<MulTerm>, skip: Option<nat>, a: Assignment, b: Assignment)
    requires forall i :: 0 <= i < |ts| && skip != Some(ts[i].left) ==> At(a, ts[i].left) == At(b, ts[i].left)
    requires forall i :: 0 <= i < |ts| && skip != Some(ts[i].right) ==> At(a, ts[i].right) == At(b, ts[i].right)
    ensures MulRestSum(ts, skip, a) == MulRestSum(ts, skip, b) && MulFactorSum(ts, skip, a) == MulFactorSum(ts, skip, b)
    decreases |ts|
  {
    if ts != [] {
      MulSumsAgree(ts[..|ts| - 1], skip, a, b);
    }
  }

  lemma {:induction false} LinearSumsAgree(ts: seq<LinearTerm>, skip: Option<nat>, a: Assignment, b: Assignment)
    requires forall i :: 0 <= i < |ts| ==> (skip != Some(ts[i].wit) ==> At(a, ts[i].wit) == At(b, ts[i].wit))
    ensures LinearRestSum(ts, skip, a) == LinearRestSum(ts, skip, b)
    decreases |ts|
  {
    if ts != [] {
      LinearSumsAgree(ts[..|ts| - 1], skip, a, b);
    }
  }

  lemma PartsAgree(e: Expression, skip: Option<nat>, a: Assignment, b: Assignment)
    requires AgreeOff(e, skip, a, b)
    ensures Rest(e, skip, a) == Rest(e, skip, b) && Factor(e, skip, a) == Factor(e, skip, b)
  {
    hide MulRestSum, MulFactorSum, LinearRestSum, LinearFactorSum, At;
    forall i | 0 <= i < |e.mulTerms|
      ensures e.mulTerms[i].left in Witnesses(e) && e.mulTerms[i].right in Witnesses(e)
    {
      TermWitnesses(e, i);
    }
    forall i | 0 <= i < |e.linear|
      ensures e.linear[i].wit in Witnesses(e)
    {
      LinearWitness(e, i);
    }
    hide Witnesses;
    MulSumsAgree(e.mulTerms, skip, a, b);
    LinearSumsAgree(e.linear, skip, a, b);
  }

  // ── Emission ─────────────────────────────────────────────────────────────

  lemma FeltAdd(a: Felt, x: int, b: Felt, y: int)
    requires Cong(a, x, PRIME) && Cong(b, y, PRIME)
    ensures Cong(Add(a, b), x + y, PRIME)
  {
    CongAdd(a, x, b, y, PRIME);
    CongMod(a + b, PRIME);
    CongTrans(Add(a, b), a + b, x + y, PRIME);
  }

  lemma FeltMul(m: nat, a: nat, x: int, b: nat, y: int)
    requires m > 0 && Cong(a, x, m) && Cong(b, y, m)
    ensures Cong((a * b) % m, x * y, m)
  {
    CongMul(a, x, b, y, m);
    CongMod(a * b, m);
    CongTrans((a * b) % m, a * b, x * y, m);
  }

  lemma FeltNeg(a: Felt, x: int)
    requires Cong(a, x, PRIME)
    ensures Cong(Neg(a), -x, PRIME)
  {
    CongRefl(0, PRIME);
    CongAdd(0, 0, a, x, PRIME);
    NegIsMinus(a);
    CongTrans(Neg(a), 0 - a, 0 - x, PRIME);
  }

  lemma NegIsMinus(a: Felt)
    ensures Cong(Neg(a), 0 - a, PRIME)
  {
    if a == 0 {
      CongRefl(0, PRIME);
    } else {
      CongIntro(PRIME - a, 0 - a, PRIME, 1);
    }
  }

  /** A value times a coefficient, without a multiplication for 0, 1 and -1. */
  function ApplyCoefficient(value: Felt, coeff: Felt): Option<Felt> {
    if coeff == 0 then None
    else if coeff == 1 then Some(value)
    else if coeff == PRIME - 1 then Some(Neg(value))
    else Some(Mul(value, coeff))
  }

  lemma CoefficientApplied(value: Felt, coeff: Felt, x: int)
    requires Cong(value, x, PRIME)
    ensures ApplyCoefficient(value, coeff).None? <==> coeff == 0
    ensures coeff != 0 ==> Cong(ApplyCoefficient(value, coeff).value, coeff * x, PRIME)
  {
    hide Cong;
    if coeff == PRIME - 1 {
      FeltNeg(value, x);
      CongIntro(-x, (PRIME - 1) * x, PRIME, -x);
      CongTrans(Neg(value), -x, (PRIME - 1) * x, PRIME);
    } else if coeff > 1 {
      CongRefl(coeff, PRIME);
      FeltMul(PRIME, value, x, coeff, coeff);
      assert x * coeff == coeff * x;
    }
  }

  /** The factor of the skipped witness: its constant part and, if products
      contribute, their run-time part. */
  datatype SkippedCoeff = SkippedCoeff(linear: Felt, mul: Option<Felt>) {
    predicate IsZero() {
      linear == 0 && mul.None?
    }

    function AsScalar(): Option<Felt> {
      if mul.None? then Some(linear) else None
    }

    function ToValue(): Felt {
      if mul.None? then linear else if linear == 0 then mul.value else Add(mul.value, linear)
    }
  }

  function Opt(v: Option<Felt>): Felt {
    if v.Some? then v.value else 0
  }

  lemma ToValueAdds(s: SkippedCoeff, x: int, y: int)
    requires Cong(Opt(s.mul), x, PRIME) && Cong(s.linear, y, PRIME)
    ensures Cong(s.ToValue(), x + y, PRIME)
  {
    FeltAdd(Opt(s.mul), x, s.linear, y);
    if s.mul.None? {
      assert Add(0, s.linear) == s.linear;
    } else if s.linear == 0 {
      assert Add(s.mul.value, 0) == s.mul.value;
    }
  }

  function SumOf(terms: seq<Felt>): int {
    if terms == [] then 0 else SumOf(terms[..|terms| - 1]) + terms[|terms| - 1]
  }

  lemma SumSnoc(terms: seq<Felt>, t: Felt)
    ensures SumOf(terms + [t]) == SumOf(terms) + t
  {
    assert (terms + [t])[..|terms|] == terms;
  }

  lemma PushTerm(terms: seq<Felt>, x: int, t: Felt, y: int)
    requires Cong(SumOf(terms), x, PRIME) && Cong(t, y, PRIME)
    ensures Cong(SumOf(terms + [t]), x + y, PRIME)
  {
    SumSnoc(terms, t);
    CongAdd(SumOf(terms), x, t, y, PRIME);
  }

  /** Adds up all terms; no terms give no value. */
  method SumTerms(terms: seq<Felt>) returns (acc: Option<Felt>)
    ensures acc.None? <==> terms == []
    ensures Cong(Opt(acc), SumOf(terms), PRIME)
  {
    hide Add, Cong;
    if terms == [] {
      CongRefl(0, PRIME);
      return None;
    }
    var sum := terms[0];
    CongRefl(sum, PRIME);
    assert terms[..1] == [] + [sum];
    SumSnoc([], sum);
    for i := 1 to |terms|
      invariant Cong(sum, SumOf(terms[..i]), PRIME)
    {
      assert terms[..i + 1] == terms[..i] + [terms[i]];
      SumSnoc(terms[..i], terms[i]);
      CongRefl(terms[i], PRIME);
      FeltAdd(sum, SumOf(terms[..i]), terms[i], terms[i]);
      sum := Add(sum, terms[i]);
    }
    assert terms[..|terms|] == terms;
    return Some(sum);
  }

  ghost predicate Readable(writer: BlockWriter, e: Expression, skip: Option<nat>)
    reads writer
  {
    writer.Valid() && forall w :: w in Witnesses(e) && skip != Some(w) ==> w in writer.Assigned()
  }

  /** Some product mentions the skipped witness exactly once. */
  ghost predicate InProduct(ts: seq<MulTerm>, skip: Option<nat>) {
    exists i :: 0 <= i < |ts| && ts[i].coeff != 0 && (skip == Some(ts[i].left) || skip == Some(ts[i].right))
  }

  /** What the loop over the products has gathered from `ts`. */
  ghost predicate MulGathered(ts: seq<MulTerm>, skip: Option<nat>, a: Assignment, terms: seq<Felt>, mul: Option<Felt>) {
    && !SquareIn(ts, skip)
    && Cong(SumOf(terms), MulRestSum(ts, skip, a), PRIME)
    && Cong(Opt(mul), MulFactorSum(ts, skip, a), PRIME)
    && (mul.Some? <==> InProduct(ts, skip))
  }

  lemma MulGatherStart(skip: Option<nat>, a: Assignment)
    ensures MulGathered([], skip, a, [], None)
  {
    CongRefl(0, PRIME);
  }

  /** What one product adds to the terms and to the factor. */
  lemma MulGatherStep(ts: seq<MulTerm>, t: MulTerm, skip: Option<nat>, a: Assignment, terms: seq<Felt>, mul: Option<Felt>)
    requires MulGathered(ts, skip, a, terms, mul)
    requires !(t.coeff != 0 && skip == Some(t.left) && skip == Some(t.right))
    ensures t.coeff == 0 ==> MulGathered(ts + [t], skip, a, terms, mul)
    ensures t.coeff != 0 && (skip == Some(t.left) || skip == Some(t.right)) ==>
      var other := if skip == Some(t.left) then t.right else t.left;
      var c := ApplyCoefficient(At(a, other), t.coeff);
      c.Some? && MulGathered(ts + [t], skip, a, terms, Some(if mul.None? then c.value else Add(mul.value, c.value)))
    ensures t.coeff != 0 && skip != Some(t.left) && skip != Some(t.right) ==>
      var c := ApplyCoefficient(Mul(At(a, t.left), At(a, t.right)), t.coeff);
      c.Some? && MulGathered(ts + [t], skip, a, terms + [c.value], mul)
  {
    var all := ts + [t];
    assert all[..|all| - 1] == ts && all[|all| - 1] == t;
    GatherFlags(ts, t, skip);
    hide Cong, MulRestSum, MulFactorSum, InProduct, SquareIn, SumOf, ApplyCoefficient, Add, Mul;
    MulSnoc(ts, t, skip, a);
    var rest, factor := MulRestSum(ts, skip, a), MulFactorSum(ts, skip, a);
    if t.coeff == 0 {
    } else if skip == Some(t.left) || skip == Some(t.right) {
      var other := if skip == Some(t.left) then t.right else t.left;
      CongRefl(At(a, other), PRIME);
      CoefficientApplied(At(a, other), t.coeff, At(a, other));
      var c := ApplyCoefficient(At(a, other), t.coeff).value;
      FeltAdd(Opt(mul), factor, c, t.coeff * At(a, other));
      AddZero(c);
    } else {
      ProductValue(a, t);
      CoefficientApplied(Mul(At(a, t.left), At(a, t.right)), t.coeff, At(a, t.left) * At(a, t.right));
      PushTerm(terms, rest, ApplyCoefficient(Mul(At(a, t.left), At(a, t.right)), t.coeff).value, MulRest(t, skip, a));
    }
  }

  lemma AddZero(c: Felt)
    ensures Add(0, c) == c
  {
  }

  lemma ProductValue(a: Assignment, t: MulTerm)
    ensures Cong(Mul(At(a, t.left), At(a, t.right)), At(a, t.left) * At(a, t.right), PRIME)
  {
    CongMod(At(a, t.left) * At(a, t.right), PRIME);
  }

  lemma MulSnoc(ts: seq<MulTerm>, t: MulTerm, skip: Option<nat>, a: Assignment)
    ensures MulRestSum(ts + [t], skip, a) == MulRestSum(ts, skip, a) + MulRest(t, skip, a)
    ensures MulFactorSum(ts + [t], skip, a) == MulFactorSum(ts, skip, a) + MulFactor(t, skip, a)
  {
    var all := ts + [t];
    assert all[..|all| - 1] == ts && all[|all| - 1] == t;
  }

  lemma GatherFlags(ts: seq<MulTerm>, t: MulTerm, skip: Option<nat>)
    ensures InProduct(ts + [t], skip) <==> InProduct(ts, skip) || (t.coeff != 0 && (skip == Some(t.left) || skip == Some(t.right)))
    ensures SquareIn(ts + [t], skip) <==> SquareIn(ts, skip) || (t.coeff != 0 && skip == Some(t.left) && skip == Some(t.right))
  {
    var all := ts + [t];
    assert all[|ts|] == t;
    assert forall i :: 0 <= i < |ts| ==> all[i] == ts[i];
  }

  method EmitMulTerms(writer: BlockWriter, e: Expression, skip: Option<nat>)
    returns (r: Translated<(seq<Felt>, Option<Felt>)>)
    requires Readable(writer, e, skip)
    modifies writer`witnessCache
    ensures writer.Valid() && writer.Assigned() == old(writer.Assigned())
    ensures r.Ok? <==> !SquareIn(e.mulTerms, skip)
    ensures r.Ok? ==> MulGathered(e.mulTerms, skip, writer.Assigned(), r.value.0, r.value.1)
    ensures r.Err? ==> skip.Some? && r.error == NonLinearUnknown(skip.value)
  {
    hide MulGathered, ApplyCoefficient, Add, Mul, Cong, SquareIn;
    ghost var a := writer.Assigned();
    var terms: seq<Felt> := [];
    var mul: Option<Felt> := None;
    MulGatherStart(skip, a);
    for k := 0 to |e.mulTerms|
      invariant writer.Valid() && writer.Assigned() == a
      invariant MulGathered(e.mulTerms[..k], skip, a, terms, mul)
    {
      var t := e.mulTerms[k];
      assert e.mulTerms[..k + 1] == e.mulTerms[..k] + [t];
      TermWitnesses(e, k);
      if t.coeff == 0 {
        MulGatherStep(e.mulTerms[..k], t, skip, a, terms, mul);
        continue;
      }
      if skip.Some? {
        var iIsUnknown := t.left == skip.value;
        var jIsUnknown := t.right == skip.value;
        if iIsUnknown && jIsUnknown {
          SquareFound(e.mulTerms, k, skip);
          return Err(NonLinearUnknown(skip.value));
        }
        if iIsUnknown || jIsUnknown {
          var other := if iIsUnknown then t.right else t.left;
          MulGatherStep(e.mulTerms[..k], t, skip, a, terms, mul);
          var otherVal := writer.ReadWitness(other);
          var contribution := ApplyCoefficient(otherVal, t.coeff).value;
          mul := Some(if mul.None? then contribution else Add(mul.value, contribution));
          continue;
        }
      }
      MulGatherStep(e.mulTerms[..k], t, skip, a, terms, mul);
      var vi := writer.ReadWitness(t.left);
      var vj := writer.ReadWitness(t.right);
      var val := ApplyCoefficient(Mul(vi, vj), t.coeff);
      terms := terms + [val.value];
    }
    assert e.mulTerms[..|e.mulTerms|] == e.mulTerms;
    NoSquare(e.mulTerms, skip, a, terms, mul);
    return Ok((terms, mul));
  }

  lemma NoSquare(ts: seq<MulTerm>, skip: Option<nat>, a: Assignment, terms: seq<Felt>, mul: Option<Felt>)
    requires MulGathered(ts, skip, a, terms, mul)
    ensures !SquareIn(ts, skip)
  {
  }

  lemma SquareFound(ts: seq<MulTerm>, k: nat, skip: Option<nat>)
    requires k < |ts| && ts[k].coeff != 0 && skip == Some(ts[k].left) && skip == Some(ts[k].right)
    ensures SquareIn(ts, skip)
  {
  }

  lemma TermWitnesses(e: Expression, k: nat)
    requires k < |e.mulTerms|
    ensures e.mulTerms[k].left in Witnesses(e) && e.mulTerms[k].right in Witnesses(e)
  {
  }

  lemma LinearWitness(e: Expression, k: nat)
    requires k < |e.linear|
    ensures e.linear[k].wit in Witnesses(e)
  {
  }

  lemma NoLinearTerms(skip: Option<nat>, a: Assignment)
    ensures LinearRestSum([], skip, a) == 0 && LinearFactorSum([], skip) == 0
  {
  }

  lemma NextLinearTerm(ts: seq<LinearTerm>, k: nat, skip: Option<nat>, a: Assignment)
    requires k < |ts|
    ensures LinearRestSum(ts[..k + 1], skip, a)
         == LinearRestSum(ts[..k], skip, a) + (if skip == Some(ts[k].wit) then 0 else ts[k].coeff * At(a, ts[k].wit))
    ensures LinearFactorSum(ts[..k + 1], skip) == LinearFactorSum(ts[..k], skip) + (if skip == Some(ts[k].wit) then ts[k].coeff else 0)
  {
    assert ts[..k + 1][..k] == ts[..k];
  }

  method EmitLinearTerms(writer: BlockWriter, e: Expression, skip: Option<nat>, before: seq<Felt>, ghost x: int)
    returns (terms: seq<Felt>, linear: Felt)
    requires Readable(writer, e, skip) && Cong(SumOf(before), x, PRIME)
    modifies writer`witnessCache
    ensures writer.Valid() && writer.Assigned() == old(writer.Assigned())
    ensures Cong(SumOf(terms), x + LinearRestSum(e.linear, skip, writer.Assigned()), PRIME)
    ensures Cong(linear, LinearFactorSum(e.linear, skip), PRIME)
  {
    hide ApplyCoefficient, Add, Mul, Cong, SumOf, LinearRestSum, LinearFactorSum;
    ghost var a := writer.Assigned();
    NoLinearTerms(skip, a);
    terms, linear := before, 0;
    CongRefl(0, PRIME);
    for k := 0 to |e.linear|
      invariant writer.Valid() && writer.Assigned() == a
      invariant Cong(SumOf(terms), x + LinearRestSum(e.linear[..k], skip, a), PRIME)
      invariant Cong(linear, LinearFactorSum(e.linear[..k], skip), PRIME)
    {
      var t := e.linear[k];
      NextLinearTerm(e.linear, k, skip, a);
      LinearWitness(e, k);
      CongRefl(t.coeff, PRIME);
      if t.coeff == 0 {
        continue;
      }
      if skip == Some(t.wit) {
        FeltAdd(linear, LinearFactorSum(e.linear[..k], skip), t.coeff, t.coeff);
        linear := Add(linear, t.coeff);
        continue;
      }
      var vk := writer.ReadWitness(t.wit);
      CongRefl(vk, PRIME);
      CoefficientApplied(vk, t.coeff, vk);
      var val := ApplyCoefficient(vk, t.coeff);
      PushTerm(terms, x + LinearRestSum(e.linear[..k], skip, a), val.value, t.coeff * vk);
      terms := terms + [val.value];
    }
    assert e.linear[..|e.linear|] == e.linear;
  }

  /** The value without the terms of one witness, and the factor of the latter. */
  method EmitExpressionExcluding(writer: BlockWriter, e: Expression, skip: Option<nat>)
    returns (r: Translated<(Option<Felt>, SkippedCoeff)>)
    requires Readable(writer, e, skip)
    modifies writer`witnessCache
    ensures writer.Valid() && writer.Assigned() == old(writer.Assigned())
    ensures r.Ok? <==> !SquareIn(e.mulTerms, skip)
    ensures r.Ok? ==> Cong(Opt(r.value.0), Rest(e, skip, writer.Assigned()), PRIME)
    ensures r.Ok? ==> Cong(r.value.1.ToValue(), Factor(e, skip, writer.Assigned()), PRIME)
    ensures r.Ok? ==> (r.value.1.IsZero() <==> !InProduct(e.mulTerms, skip) && Cong(LinearFactorSum(e.linear, skip), 0, PRIME))
    ensures r.Err? ==> skip.Some? && r.error == NonLinearUnknown(skip.value)
  {
    hide Cong, SumOf, MulRestSum, MulFactorSum, LinearRestSum, LinearFactorSum, InProduct, SquareIn, Witnesses;
    ghost var a := writer.Assigned();
    var products := EmitMulTerms(writer, e, skip);
    if products.Err? {
      return Err(products.error);
    }
    ghost var x := MulRestSum(e.mulTerms, skip, a);
    var terms, linear := EmitLinearTerms(writer, e, skip, products.value.0, x);
    ghost var y := x + LinearRestSum(e.linear, skip, a);
    if e.constant != 0 {
      CongRefl(e.constant, PRIME);
      PushTerm(terms, y, e.constant, e.constant);
      terms := terms + [e.constant];
    }
    var acc := SumTerms(terms);
    CongTrans(Opt(acc), SumOf(terms), y + e.constant, PRIME);
    var skipped := SkippedCoeff(linear, products.value.1);
    ToValueAdds(skipped, MulFactorSum(e.mulTerms, skip, a), LinearFactorSum(e.linear, skip));
    ZeroFelt(linear, LinearFactorSum(e.linear, skip));
    return Ok((acc, skipped));
  }

  lemma ZeroFelt(v: Felt, x: int)
    requires Cong(v, x, PRIME)
    ensures v == 0 <==> Cong(x, 0, PRIME)
  {
    CongSym(v, x, PRIME);
    if Cong(x, 0, PRIME) {
      CongTrans(v, x, 0, PRIME);
      CongSmall(v, 0, PRIME);
    }
  }

  /** The value of the whole expression, or zero if it has no terms. */
  method EmitExpression(writer: BlockWriter, e: Expression) returns (v: Felt)
    requires Readable(writer, e, None)
    modifies writer`witnessCache
    ensures writer.Valid() && writer.Assigned() == old(writer.Assigned())
    ensures Cong(v, Eval(e, writer.Assigned()), PRIME)
  {
    var r := EmitExpressionExcluding(writer, e, None);
    v := Opt(r.value.0);
  }
}
