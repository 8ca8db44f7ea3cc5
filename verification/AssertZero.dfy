/** The witness solver (`assert_zero.rs`): `@compute` solves each gate for its one
    unknown witness, `@constrain` checks every gate. */
module AssertZeros {
  import opened Graphs
  import opened Felts
  import opened ModArith
  import opened BlockWriters
  import opened Expressions

  // ── What a run computes ──────────────────────────────────────────────────

  function Unknowns(e: Expression, a: Assignment): set<nat> {
    Witnesses(e) - a.Keys
  }

  /** The unknown has a factor at all: a product mentions it, or its constant
      factors do not cancel. */
  ghost predicate HasFactor(e: Expression, u: nat) {
    InProduct(e.mulTerms, Some(u)) || !Cong(LinearFactorSum(e.linear, Some(u)), 0, PRIME)
  }

  /** `-B / coeff`. */
  ghost function Solution(e: Expression, u: nat, a: Assignment): Felt {
    (-Rest(e, Some(u), a) * InverseMod(PRIME, Factor(e, Some(u), a))) % PRIME
  }

  /** One gate of `@compute`. */
  ghost function Step(e: Expression, index: nat, a: Assignment): Translated<Assignment> {
    var unknowns := Unknowns(e, a);
    if unknowns == {} then Ok(a)
    else if |unknowns| == 1 then
      var u :| u in unknowns;
      if SquareIn(e.mulTerms, Some(u)) then Err(NonLinearUnknown(u))
      else if !HasFactor(e, u) then Err(UnconstrainedUnknown(u))
      else Ok(a[u := Solution(e, u, a)])
    else Err(UnsolvableWitness(|unknowns|, index))
  }

  ghost function Execute(gates: seq<Expression>, n: nat, inputs: Assignment): Translated<Assignment>
    requires n <= |gates|
  {
    if n == 0 then Ok(inputs)
    else
      var before := Execute(gates, n - 1, inputs);
      if before.Err? then before else Step(gates[n - 1], n - 1, before.value)
  }

  /** Gate `i` had one unknown when its turn came. */
  ghost predicate IsSolved(gates: seq<Expression>, i: nat, inputs: Assignment) {
    i < |gates| && Execute(gates, i, inputs).Ok? && |Unknowns(gates[i], Execute(gates, i, inputs).value)| == 1
  }

  /** Gate `i` had none. */
  ghost predicate IsChecked(gates: seq<Expression>, i: nat, inputs: Assignment) {
    i < |gates| && Execute(gates, i, inputs).Ok? && Unknowns(gates[i], Execute(gates, i, inputs).value) == {}
  }

  /** The factors divided by are not zero. */
  ghost predicate FactorsNonZero(gates: seq<Expression>, inputs: Assignment) {
    forall i: nat, u: nat :: IsSolved(gates, i, inputs) && u in Unknowns(gates[i], Execute(gates, i, inputs).value) ==>
      !Cong(Factor(gates[i], Some(u), Execute(gates, i, inputs).value), 0, PRIME)
  }

  // ── When a gate is refused ───────────────────────────────────────────────

  /** No product squares the witness. */
  ghost predicate LinearIn(e: Expression, u: nat) {
    forall t :: t in e.mulTerms && t.left == u && t.right == u ==> t.coeff == 0
  }

  /** Some product mentions the witness. */
  ghost predicate Multiplied(e: Expression, u: nat) {
    exists t :: t in e.mulTerms && t.coeff != 0 && (t.left == u || t.right == u)
  }

  function ValueWith(e: Expression, u: nat, a: Assignment, v: Felt): int {
    Eval(e, a[u := v])
  }

  /** Two values of the witness give the gate different values. */
  ghost predicate Matters(e: Expression, u: nat, a: Assignment) {
    exists v: Felt, x: Felt :: !Cong(ValueWith(e, u, a, v), ValueWith(e, u, a, x), PRIME)
  }

  lemma ProductsNamed(e: Expression, u: nat)
    ensures LinearIn(e, u) <==> !SquareIn(e.mulTerms, Some(u))
    ensures Multiplied(e, u) <==> InProduct(e.mulTerms, Some(u))
  {
  }

  lemma {:induction false} NoProductNoFactor(ts: seq<MulTerm>, u: nat, a: Assignment)
    requires forall i :: 0 <= i < |ts| ==> ts[i].coeff == 0 || (ts[i].left != u && ts[i].right != u)
    ensures MulFactorSum(ts, Some(u), a) == 0
    decreases |ts|
  {
    if ts != [] {
      NoProductNoFactor(ts[..|ts| - 1], u, a);
    }
  }

  /** The value as a function of one witness. */
  lemma ValueAt(e: Expression, u: nat, a: Assignment, v: Felt)
    requires LinearIn(e, u)
    ensures ValueWith(e, u, a, v) == Rest(e, Some(u), a) + Factor(e, Some(u), a) * v
  {
    var b := a[u := v];
    ProductsNamed(e, u);
    assert AgreeOff(e, Some(u), a, b);
    hide LinearIn, SquareIn;
    PartsAgree(e, Some(u), a, b);
    Split(e, u, b);
    assert At(b, u) == v;
  }

  /** A witness matters exactly when its factor is not zero. */
  lemma MattersIff(e: Expression, u: nat, a: Assignment)
    requires LinearIn(e, u)
    ensures Matters(e, u, a) <==> !Cong(Factor(e, Some(u), a), 0, PRIME)
  {
    hide LinearIn, Factor, Rest, ValueWith, Cong;
    var x, y := Rest(e, Some(u), a), Factor(e, Some(u), a);
    ValueAt(e, u, a, 1);
    ValueAt(e, u, a, 0);
    if Cong(y, 0, PRIME) {
      forall v: Felt, w: Felt
        ensures Cong(ValueWith(e, u, a, v), ValueWith(e, u, a, w), PRIME)
      {
        ValueAt(e, u, a, v);
        ValueAt(e, u, a, w);
        SameOnZeroFactor(x, y, v, w);
      }
    } else if Cong(x + y * 1, x + y * 0, PRIME) {
      CongRefl(x, PRIME);
      CongAdd(x + y * 1, x + y * 0, x, x, PRIME);
      assert false;
    }
  }

  lemma SameOnZeroFactor(x: int, y: int, v: int, w: int)
    requires Cong(y, 0, PRIME)
    ensures Cong(x + y * v, x + y * w, PRIME)
  {
    hide Cong;
    CongRefl(v - w, PRIME);
    CongMul(y, 0, v - w, v - w, PRIME);
    assert 0 * (v - w) == 0 && y * (v - w) == y * v - y * w;
    CongRefl(x + y * w, PRIME);
    CongAdd(y * v - y * w, 0, x + y * w, x + y * w, PRIME);
  }

  /** A witness in no product has the factor of its linear terms. */
  lemma FactorWithoutProducts(e: Expression, u: nat, a: Assignment)
    requires !Multiplied(e, u)
    ensures Factor(e, Some(u), a) == LinearFactorSum(e.linear, Some(u))
  {
    forall i | 0 <= i < |e.mulTerms|
      ensures e.mulTerms[i].coeff == 0 || (e.mulTerms[i].left != u && e.mulTerms[i].right != u)
    {
      assert e.mulTerms[i] in e.mulTerms;
    }
    NoProductNoFactor(e.mulTerms, u, a);
  }

  /** A gate with one unknown is refused exactly when a product squares it, or when
      no product mentions it and it does not matter. */
  lemma RefusedIff(e: Expression, index: nat, a: Assignment, u: nat)
    requires Unknowns(e, a) == {u}
    ensures Step(e, index, a) == Err(NonLinearUnknown(u)) <==> !LinearIn(e, u)
    ensures Step(e, index, a) == Err(UnconstrainedUnknown(u)) <==> LinearIn(e, u) && !Multiplied(e, u) && !Matters(e, u, a)
    ensures Step(e, index, a).Ok? <==> LinearIn(e, u) && (Multiplied(e, u) || Matters(e, u, a))
  {
    ProductsNamed(e, u);
    if LinearIn(e, u) {
      MattersIff(e, u, a);
    }
    if !Multiplied(e, u) {
      FactorWithoutProducts(e, u, a);
    }
    hide LinearIn, Multiplied, Matters, SquareIn, InProduct, Cong, Factor, Witnesses, Solution;
    forall v | v in Unknowns(e, a)
      ensures v == u
    {
    }
  }

  /** The gate can be solved: it has at most one unknown, which is not squared and
      has a factor that is not zero. */
  ghost predicate Solvable(e: Expression, a: Assignment) {
    && |Unknowns(e, a)| <= 1
    && forall u: nat :: u in Unknowns(e, a) ==> LinearIn(e, u) && !Cong(Factor(e, Some(u), a), 0, PRIME)
  }

  lemma SolvableAccepted(e: Expression, index: nat, a: Assignment)
    requires Solvable(e, a)
    ensures Step(e, index, a).Ok?
  {
    hide Cong, Factor, Witnesses, LinearIn, Multiplied, Matters;
    var unknowns := Unknowns(e, a);
    if unknowns == {} {
      StepIdle(e, index, a);
    } else {
      var u: nat :| u in unknowns;
      SubsetCardinality({u}, unknowns);
      SingleUnknown(unknowns, u);
      MattersIff(e, u, a);
      hide Step;
      RefusedIff(e, index, a, u);
    }
  }

  /** Every gate can be solved at its turn. */
  ghost predicate EachSolvable(gates: seq<Expression>, inputs: Assignment) {
    forall i: nat :: i < |gates| && Execute(gates, i, inputs).Ok? ==> Solvable(gates[i], Execute(gates, i, inputs).value)
  }

  /** Such gates are all accepted. */
  lemma {:induction false} SolvableRuns(gates: seq<Expression>, n: nat, inputs: Assignment)
    requires n <= |gates| && EachSolvable(gates, inputs)
    ensures Execute(gates, n, inputs).Ok? && FactorsNonZero(gates, inputs)
    decreases n
  {
    hide Step, Solvable, Execute;
    if n == 0 {
      ExecuteNone(gates, inputs);
      FactorsOfSolvable(gates, inputs);
    } else {
      SolvableRuns(gates, n - 1, inputs);
      ExecuteStep(gates, n, inputs);
      SolvableAccepted(gates[n - 1], n - 1, Execute(gates, n - 1, inputs).value);
    }
  }

  lemma FactorsOfSolvable(gates: seq<Expression>, inputs: Assignment)
    requires EachSolvable(gates, inputs)
    ensures FactorsNonZero(gates, inputs)
  {
    hide Execute, Cong, Factor, LinearIn;
  }

  // ── The emitted code ─────────────────────────────────────────────────────

  lemma SingleUnknown(s: set<nat>, u: nat)
    requires |s| == 1 && u in s
    ensures s == {u}
  {
    forall v | v in s
      ensures v == u
    {
      if v != u {
        assert {u, v} <= s;
        assert |{u, v}| == 2;
        SubsetCardinality({u, v}, s);
      }
    }
  }

  /** What dividing computes, for each way the coefficient is given; `nb` is the
      negation of `b`. */
  lemma QuotientForms(m: nat, b: nat, nb: nat, c: nat, x: int, y: int)
    requires m > 1 && Prime(m) && b < m && nb < m && Cong(b, x, m) && Cong(nb, -x, m) && Cong(c, y, m) && !Cong(y, 0, m)
    requires b == 0 ==> nb == 0
    ensures (nb * InverseMod(m, c)) % m == (-x * InverseMod(m, y)) % m
    ensures b == 0 ==> (-x * InverseMod(m, y)) % m == 0
    ensures c == m - 1 ==> (-x * InverseMod(m, y)) % m == b
    ensures c == 1 ==> (-x * InverseMod(m, y)) % m == nb
  {
    hide Prime, Cong, InverseMod;
    InverseAgrees(m, c, y);
    var i := InverseMod(m, y);
    CongRefl(i, m);
    CongMul(nb, -x, i, i, m);
    CongIffMod(nb * i, -x * i, m);
    var s := (-x * i) % m;
    QuotientWorks(m, -x, y);
    if b == 0 {
      ZeroTimes(nb, i, m);
    }
    CongRefl(s, m);
    CongMul(s, s, c, y, m);
    CongTrans(s * c, s * y, -x, m);
    if c == 1 {
      CongSym(nb, -x, m);
      CongTrans(s, -x, nb, m);
      CongSmall(s, nb, m);
    }
    if c == m - 1 {
      TimesMinusOne(m, s, -x);
      CongSym(b, x, m);
      CongTrans(s, x, b, m);
      CongSmall(s, b, m);
    }
  }

  lemma ZeroTimes(a: nat, b: nat, m: nat)
    requires a == 0 && m > 0
    ensures (a * b) % m == 0
  {
  }

  lemma TimesMinusOne(m: nat, s: int, x: int)
    requires m > 0 && Cong(s * (m - 1), x, m)
    ensures Cong(s, -x, m)
  {
    var k :| Apart(s * (m - 1), x, m, k);
    assert s * (m - 1) == s * m - s;
    assert m * (s - k) == s * m - m * k;
    CongIntro(s, -x, m, s - k);
  }

  lemma InverseAgrees(m: nat, c: int, y: int)
    requires m > 1 && Cong(c, y, m)
    ensures InverseMod(m, c) == InverseMod(m, y)
  {
    CongIffMod(c, y, m);
  }

  /** The division of two field elements; by zero it is zero here, a case the
      statements about runs exclude. */
  function Div(a: Felt, b: Felt): Felt {
    (a * InverseMod(PRIME, b)) % PRIME
  }

  /** `w_u * coeff + B = 0` solved for `w_u`. */
  method SolveWitness(writer: BlockWriter, e: Expression, u: nat) returns (r: Translated<Felt>)
    requires Readable(writer, e, Some(u)) && writer.known.Some? && Prime(PRIME)
    modifies writer`witnessCache, writer`members, writer`known
    ensures writer.Valid() && writer.known.Some?
    ensures SquareIn(e.mulTerms, Some(u)) ==> r == Err(NonLinearUnknown(u))
    ensures !SquareIn(e.mulTerms, Some(u)) && !HasFactor(e, u) ==> r == Err(UnconstrainedUnknown(u))
    ensures r.Ok? <==> !SquareIn(e.mulTerms, Some(u)) && HasFactor(e, u)
    ensures r.Ok? ==> writer.Assigned() == old(writer.Assigned())[u := r.value]
    ensures r.Ok? && !Cong(Factor(e, Some(u), old(writer.Assigned())), 0, PRIME) ==> r.value == Solution(e, u, old(writer.Assigned()))
  {
    hide Cong, Prime, InverseMod, SquareIn, InProduct, Rest, Factor;
    ghost var a := writer.Assigned();
    ghost var x, y := Rest(e, Some(u), a), Factor(e, Some(u), a);
    var emitted := EmitExpressionExcluding(writer, e, Some(u));
    if emitted.Err? {
      return Err(emitted.error);
    }
    var (b, skipped) := emitted.value;
    if skipped.IsZero() {
      return Err(UnconstrainedUnknown(u));
    }
    var result: Felt;
    if b.None? {
      result := 0;
    } else if skipped.AsScalar() == Some(PRIME - 1) {
      result := b.value;
    } else if skipped.AsScalar() == Some(1) {
      result := Neg(b.value);
    } else {
      result := Div(Neg(b.value), skipped.ToValue());
    }
    if !Cong(y, 0, PRIME) {
      FeltNeg(Opt(b), x);
      QuotientForms(PRIME, Opt(b), Neg(Opt(b)), skipped.ToValue(), x, y);
    }
    writer.SolveAs(u, result);
    return Ok(result);
  }

  /** One gate of `@compute`: nothing to do, one witness to solve, or an error. */
  method EmitCompute(writer: BlockWriter, e: Expression, index: nat) returns (r: Translated<()>)
    requires writer.Valid() && writer.known.Some? && Prime(PRIME)
    modifies writer`witnessCache, writer`members, writer`known
    ensures writer.Valid() && writer.known.Some?
    ensures r.Ok? <==> Step(e, index, old(writer.Assigned())).Ok?
    ensures r.Err? ==> Step(e, index, old(writer.Assigned())) == Err(r.error)
    ensures r.Ok? && (forall u: nat :: Unknowns(e, old(writer.Assigned())) == {u} ==> !Cong(Factor(e, Some(u), old(writer.Assigned())), 0, PRIME)) ==>
      Step(e, index, old(writer.Assigned())) == Ok(writer.Assigned())
  {
    hide Cong, Prime, SquareIn, HasFactor, Factor, Solution, Witnesses;
    ghost var a := writer.Assigned();
    KnownAssigned(writer);
    var unknowns := Witnesses(e) - writer.known.value;
    assert unknowns == Unknowns(e, a);
    if unknowns == {} {
      return Ok(());
    }
    if |unknowns| == 1 {
      var u: nat :| u in unknowns;
      SingleUnknown(unknowns, u);
      OnlyUnread(writer, e, u);
      var solved := SolveWitness(writer, e, u);
      if solved.Err? {
        return Err(solved.error);
      }
      return Ok(());
    }
    return Err(UnsolvableWitness(|unknowns|, index));
  }

  lemma KnownAssigned(writer: BlockWriter)
    requires writer.Valid() && writer.known.Some?
    ensures writer.known.value == writer.Assigned().Keys
  {
  }

  lemma OnlyUnread(writer: BlockWriter, e: Expression, u: nat)
    requires writer.Valid() && writer.known.Some? && Witnesses(e) - writer.known.value == {u}
    ensures Readable(writer, e, Some(u))
  {
    forall w | w in Witnesses(e) && w != u
      ensures w in writer.Assigned()
    {
      assert w !in Witnesses(e) - writer.known.value;
    }
    assert u in Witnesses(e) - writer.known.value;
  }

  /** `@compute` over all gates. */
  method ComputeAll(gates: seq<Expression>, inputs: Assignment) returns (r: Translated<Assignment>)
    requires Prime(PRIME)
    ensures FactorsNonZero(gates, inputs) ==> r == Execute(gates, |gates|, inputs)
    ensures EachSolvable(gates, inputs) ==> r.Ok? && r == Execute(gates, |gates|, inputs)
  {
    hide Cong, Prime, Step, Factor, Unknowns, FactorsNonZero, EachSolvable;
    if EachSolvable(gates, inputs) {
      SolvableRuns(gates, |gates|, inputs);
    }
    ghost var good := FactorsNonZero(gates, inputs);
    var writer := new BlockWriter.ForCompute(inputs);
    for i := 0 to |gates|
      invariant writer.Valid() && writer.known.Some? && fresh(writer)
      invariant good ==> Execute(gates, i, inputs) == Ok(writer.Assigned())
    {
      ghost var a := writer.Assigned();
      if good {
        StepDivides(gates, i, inputs, a);
      }
      var step := EmitCompute(writer, gates[i], i);
      if step.Err? {
        if good {
          ErrorStays(gates, i + 1, |gates|, inputs);
        }
        return Err(step.error);
      }
    }
    var values := writer.members + writer.witnessCache;
    return Ok(values);
  }

  lemma StepDivides(gates: seq<Expression>, i: nat, inputs: Assignment, a: Assignment)
    requires i < |gates| && FactorsNonZero(gates, inputs) && Execute(gates, i, inputs) == Ok(a)
    ensures forall u: nat :: Unknowns(gates[i], a) == {u} ==> !Cong(Factor(gates[i], Some(u), a), 0, PRIME)
  {
    forall u: nat | Unknowns(gates[i], a) == {u}
      ensures !Cong(Factor(gates[i], Some(u), a), 0, PRIME)
    {
      assert IsSolved(gates, i, inputs);
      assert u in Unknowns(gates[i], Execute(gates, i, inputs).value);
    }
  }

  lemma ExecuteStep(gates: seq<Expression>, n: nat, inputs: Assignment)
    requires 0 < n <= |gates|
    ensures var before := Execute(gates, n - 1, inputs);
            Execute(gates, n, inputs) == if before.Err? then before else Step(gates[n - 1], n - 1, before.value)
  {
  }

  lemma {:induction false} ErrorStays(gates: seq<Expression>, m: nat, n: nat, inputs: Assignment)
    requires m <= n <= |gates| && Execute(gates, m, inputs).Err?
    ensures Execute(gates, n, inputs) == Execute(gates, m, inputs)
    decreases n
  {
    hide Execute, Step;
    if m < n {
      ErrorStays(gates, m, n - 1, inputs);
      ExecuteStep(gates, n, inputs);
    }
  }

  /** `@constrain` over all gates. */
  method ConstrainAll(gates: seq<Expression>, inputs: Assignment, self: Assignment) returns (accepted: bool)
    requires forall w :: w in inputs && w in self ==> inputs[w] == self[w]
    requires forall i :: 0 <= i < |gates| ==> Witnesses(gates[i]) <= inputs.Keys + self.Keys
    ensures accepted <==> forall i :: 0 <= i < |gates| ==> Holds(gates[i], self + inputs)
  {
    hide Cong, Eval, Witnesses;
    var writer := new BlockWriter.ForConstrain(inputs, self);
    for i := 0 to |gates|
      invariant writer.Valid() && fresh(writer) && writer.Assigned() == self + inputs
      invariant writer.accepted <==> forall j :: 0 <= j < i ==> Holds(gates[j], self + inputs)
    {
      var value := EmitExpression(writer, gates[i]);
      ZeroFelt(value, Eval(gates[i], self + inputs));
      writer.ConstrainEq(value, 0);
    }
    return writer.accepted;
  }

  // ── What a run guarantees ────────────────────────────────────────────────

  lemma ExtendsTrans(c: Assignment, b: Assignment, a: Assignment)
    requires Extends(c, b) && Extends(b, a)
    ensures Extends(c, a)
  {
  }

  lemma ExtendsSelf(a: Assignment)
    ensures Extends(a, a)
  {
  }

  lemma StepExtends(e: Expression, index: nat, a: Assignment)
    requires Step(e, index, a).Ok?
    ensures Extends(Step(e, index, a).value, a)
    ensures Witnesses(e) <= Step(e, index, a).value.Keys
    ensures Unknowns(e, a) == {} || |Unknowns(e, a)| == 1
  {
    hide Witnesses, SquareIn, HasFactor, Solution;
    var unknowns := Unknowns(e, a);
    if unknowns != {} {
      var u: nat :| u in unknowns && Step(e, index, a) == Ok(a[u := Solution(e, u, a)]);
      SingleUnknown(unknowns, u);
      forall w | w in Witnesses(e)
        ensures w in Step(e, index, a).value.Keys
      {
        assert w in unknowns ==> w == u;
      }
    }
  }

  lemma {:induction false} ExecuteExtends(gates: seq<Expression>, m: nat, n: nat, inputs: Assignment)
    requires m <= n <= |gates| && Execute(gates, n, inputs).Ok?
    ensures Execute(gates, m, inputs).Ok? && Extends(Execute(gates, n, inputs).value, Execute(gates, m, inputs).value)
    decreases n
  {
    hide Step, Execute, Extends;
    if m == n {
      ExtendsSelf(Execute(gates, n, inputs).value);
    } else {
      ExecuteStep(gates, n, inputs);
      ExecuteExtends(gates, m, n - 1, inputs);
      var before := Execute(gates, n - 1, inputs).value;
      StepExtends(gates[n - 1], n - 1, before);
      ExtendsTrans(Execute(gates, n, inputs).value, before, Execute(gates, m, inputs).value);
    }
  }

  lemma HoldsAgree(e: Expression, a: Assignment, b: Assignment)
    requires Extends(b, a) && Witnesses(e) <= a.Keys
    ensures Holds(e, a) <==> Holds(e, b)
  {
    assert AgreeOff(e, None, a, b);
    PartsAgree(e, None, a, b);
  }

  /** The solution meets the gate, and is the only value that does. */
  lemma SolutionExact(e: Expression, u: nat, a: Assignment, b: Assignment)
    requires Prime(PRIME) && !SquareIn(e.mulTerms, Some(u)) && AgreeOff(e, Some(u), a, b)
    requires !Cong(Factor(e, Some(u), a), 0, PRIME)
    ensures Holds(e, b) <==> At(b, u) == Solution(e, u, a)
  {
    hide Prime, Cong, SquareIn, InverseMod, At;
    PartsAgree(e, Some(u), a, b);
    Split(e, u, b);
    SolvesLinear(Rest(e, Some(u), a), Factor(e, Some(u), a), At(b, u));
  }

  lemma SolvesLinear(x: int, y: int, v: Felt)
    requires Prime(PRIME) && !Cong(y, 0, PRIME)
    ensures Cong(x + y * v, 0, PRIME) <==> v == (-x * InverseMod(PRIME, y)) % PRIME
  {
    hide Prime, Cong, InverseMod;
    var s: Felt := (-x * InverseMod(PRIME, y)) % PRIME;
    QuotientWorks(PRIME, -x, y);
    CongRefl(x, PRIME);
    CongAdd(x, x, s * y, -x, PRIME);
    assert s * y == y * s;
    if Cong(x + y * v, 0, PRIME) {
      CongAdd(x + y * v, 0, x + s * y, 0, PRIME);
      assert (x + y * v) - (x + s * y) == y * (v - s);
      Euclid(PRIME, y, v - s);
      CongRefl(s, PRIME);
      CongAdd(v - s, 0, s, s, PRIME);
      CongSmall(v, s, PRIME);
    }
  }

  /** The assignments before and after a gate was solved, and the witness. */
  lemma SolvedStep(gates: seq<Expression>, i: nat, inputs: Assignment) returns (u: nat, a: Assignment, b: Assignment)
    requires Execute(gates, |gates|, inputs).Ok? && IsSolved(gates, i, inputs)
    ensures Execute(gates, i, inputs) == Ok(a) && Execute(gates, i + 1, inputs) == Ok(b)
    ensures Unknowns(gates[i], a) == {u} && !SquareIn(gates[i].mulTerms, Some(u))
    ensures AgreeOff(gates[i], Some(u), a, b) && At(b, u) == Solution(gates[i], u, a)
    ensures Witnesses(gates[i]) <= b.Keys
  {
    hide Execute, Step, Unknowns, Solution, SquareIn, Witnesses, HasFactor, AgreeOff, At;
    a := Execute(gates, i, inputs).value;
    ExecuteExtends(gates, i + 1, |gates|, inputs);
    ExecuteStep(gates, i + 1, inputs);
    StepExtends(gates[i], i, a);
    u, b := StepSolves(gates[i], i, a);
  }

  /** A gate that was solved holds in the final assignment. */
  lemma SolvedHolds(gates: seq<Expression>, i: nat, inputs: Assignment)
    requires Prime(PRIME) && FactorsNonZero(gates, inputs) && Execute(gates, |gates|, inputs).Ok?
    requires IsSolved(gates, i, inputs)
    ensures Holds(gates[i], Execute(gates, |gates|, inputs).value)
  {
    hide Prime, Cong, Holds, SquareIn, Solution, Witnesses, Factor, Execute, Extends, Unknowns, AgreeOff;
    var u: nat, a, b := SolvedStep(gates, i, inputs);
    hide IsSolved;
    StepDivides(gates, i, inputs, a);
    SolutionExact(gates[i], u, a, b);
    ExecuteExtends(gates, i + 1, |gates|, inputs);
    HoldsAgree(gates[i], b, Execute(gates, |gates|, inputs).value);
  }

  lemma StepSolves(e: Expression, index: nat, a: Assignment) returns (u: nat, b: Assignment)
    requires Step(e, index, a).Ok? && |Unknowns(e, a)| == 1
    ensures Unknowns(e, a) == {u} && !SquareIn(e.mulTerms, Some(u))
    ensures b == a[u := Solution(e, u, a)] == Step(e, index, a).value
    ensures AgreeOff(e, Some(u), a, b) && At(b, u) == Solution(e, u, a)
  {
    hide Solution, SquareIn, HasFactor, Witnesses;
    u :| u in Unknowns(e, a) && Step(e, index, a) == Ok(a[u := Solution(e, u, a)]) && !SquareIn(e.mulTerms, Some(u));
    SingleUnknown(Unknowns(e, a), u);
    b := a[u := Solution(e, u, a)];
  }

  /** The final assignment is the only extension of the inputs that meets the
      gates that were solved. */
  lemma {:induction false} OnlyExtension(gates: seq<Expression>, n: nat, inputs: Assignment, b: Assignment)
    requires n <= |gates| && Prime(PRIME) && FactorsNonZero(gates, inputs) && Execute(gates, n, inputs).Ok?
    requires Extends(b, inputs)
    requires forall i: nat :: IsSolved(gates, i, inputs) ==> Witnesses(gates[i]) <= b.Keys && Holds(gates[i], b)
    ensures Extends(b, Execute(gates, n, inputs).value)
    decreases n
  {
    hide Prime, Cong, Holds, SquareIn, HasFactor, Solution, Witnesses, Factor, Execute, Step, Unknowns, AgreeOff, FactorsNonZero;
    if n == 0 {
      ExecuteNone(gates, inputs);
    } else {
      ExecuteExtends(gates, n - 1, n, inputs);
      OnlyExtension(gates, n - 1, inputs, b);
      var a := Execute(gates, n - 1, inputs).value;
      var e := gates[n - 1];
      ExecuteStep(gates, n, inputs);
      StepExtends(e, n - 1, a);
      if Unknowns(e, a) == {} {
        StepIdle(e, n - 1, a);
      } else {
        assert IsSolved(gates, n - 1, inputs);
        var u: nat, next := StepSolves(e, n - 1, a);
        StepDivides(gates, n - 1, inputs, a);
        AgreesWithKnown(e, u, a, b);
        SolutionExact(e, u, a, b);
        ExtendsBy(b, a, u, Solution(e, u, a));
      }
    }
  }

  lemma ExecuteNone(gates: seq<Expression>, inputs: Assignment)
    ensures Execute(gates, 0, inputs) == Ok(inputs)
  {
  }

  lemma StepIdle(e: Expression, index: nat, a: Assignment)
    requires Unknowns(e, a) == {}
    ensures Step(e, index, a) == Ok(a)
  {
  }

  lemma ExtendsBy(b: Assignment, a: Assignment, u: nat, v: Felt)
    requires Extends(b, a) && u in b && At(b, u) == v
    ensures Extends(b, a[u := v])
  {
  }

  lemma AgreesWithKnown(e: Expression, u: nat, a: Assignment, b: Assignment)
    requires Unknowns(e, a) == {u} && Extends(b, a)
    ensures AgreeOff(e, Some(u), a, b) && u in Witnesses(e)
  {
    hide Witnesses;
    assert u in Unknowns(e, a);
    forall w | w in Witnesses(e) && w != u
      ensures At(a, w) == At(b, w)
    {
      assert w !in Unknowns(e, a);
    }
  }

  /** `@constrain` accepts what `@compute` produced exactly when the gates that had
      no unknown hold as well. */
  lemma ConstrainAccepts(gates: seq<Expression>, inputs: Assignment)
    requires Prime(PRIME) && FactorsNonZero(gates, inputs) && Execute(gates, |gates|, inputs).Ok?
    ensures (forall i :: 0 <= i < |gates| ==> Holds(gates[i], Execute(gates, |gates|, inputs).value))
       <==> (forall i :: 0 <= i < |gates| && IsChecked(gates, i, inputs) ==> Holds(gates[i], Execute(gates, |gates|, inputs).value))
  {
    hide Prime, Cong, Holds, FactorsNonZero, IsChecked, IsSolved, Execute;
    if forall i :: 0 <= i < |gates| && IsChecked(gates, i, inputs) ==> Holds(gates[i], Execute(gates, |gates|, inputs).value) {
      forall i | 0 <= i < |gates|
        ensures Holds(gates[i], Execute(gates, |gates|, inputs).value)
      {
        CheckedOrSolved(gates, i, inputs);
        if IsSolved(gates, i, inputs) {
          SolvedHolds(gates, i, inputs);
        }
      }
    }
  }

  lemma CheckedOrSolved(gates: seq<Expression>, i: nat, inputs: Assignment)
    requires i < |gates| && Execute(gates, |gates|, inputs).Ok?
    ensures IsChecked(gates, i, inputs) || IsSolved(gates, i, inputs)
  {
    hide Execute, Step, Unknowns;
    ExecuteExtends(gates, i, |gates|, inputs);
    ExecuteExtends(gates, i + 1, |gates|, inputs);
    ExecuteStep(gates, i + 1, inputs);
    StepExtends(gates[i], i, Execute(gates, i, inputs).value);
  }
}
