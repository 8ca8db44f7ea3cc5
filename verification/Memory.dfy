/** Dynamic-index memory (`memory_ops/`): one-hot selectors over the index, reads
    as a selected sum, writes as a selected update of every slot. */
module Memory {
  import opened Graphs
  import opened Felts
  import opened ModArith
  import opened Gates
  import opened BlockWriters
  import opened Expressions

  // ── Selectors ────────────────────────────────────────────────────────────

  /** 1 at the index and 0 elsewhere; all 0 when the index is out of range. */
  function OneHot(idx: Felt, len: nat): seq<Felt> {
    seq(len, i => if idx == i then 1 else 0)
  }

  method SelectorsCompute(idx: Felt, len: nat) returns (selectors: seq<Felt>)
    requires len < PRIME
    ensures selectors == OneHot(idx, len)
  {
    selectors := [];
    for i := 0 to len
      invariant |selectors| == i
      invariant forall k :: 0 <= k < i ==> selectors[k] == if idx == k then 1 else 0
    {
      selectors := selectors + [if idx == i then 1 else 0];
    }
  }

  /** The constraints on selectors the prover chooses. */
  method SelectorsConstrain(idx: Felt, chosen: seq<Felt>) returns (accepted: bool)
    requires |chosen| < PRIME && Prime(PRIME)
    ensures accepted <==> |chosen| == 0 || (idx < |chosen| && chosen == OneHot(idx, |chosen|))
  {
    hide Prime, Mul, Add, Neg;
    accepted := true;
    var sum: Option<Felt> := None;
    for i := 0 to |chosen|
      invariant sum.Some? <==> i > 0
      invariant accepted <==> Selecting(chosen, idx, i)
      invariant accepted && i > 0 ==> sum.value == if idx < i && chosen[idx] == 1 then 1 else 0
    {
      var s := chosen[i];
      BooleanCheck(s);
      MatchCheck(s, idx, i);
      accepted := accepted && Mul(s, Add(s, Neg(1))) == 0 && Mul(s, Add(idx, Neg(i))) == 0;
      if accepted && sum.Some? {
        SmallSum(sum.value, s);
      }
      sum := Some(if sum.None? then s else Add(sum.value, s));
    }
    if sum.Some? {
      accepted := accepted && sum.value == 1;
      OneHotIff(chosen, idx);
    }
  }

  /** The first `n` selectors are bits, and 0 except at the index. */
  ghost predicate Selecting(chosen: seq<Felt>, idx: Felt, n: nat) {
    forall k :: 0 <= k < n && k < |chosen| ==> chosen[k] <= 1 && (chosen[k] == 0 || idx == k)
  }

  lemma BooleanCheck(s: Felt)
    requires Prime(PRIME)
    ensures Mul(s, Add(s, Neg(1))) == 0 <==> s <= 1
  {
    ProductZero(s, Add(s, Neg(1)));
    DifferenceZero(s, 1);
  }

  lemma MatchCheck(s: Felt, idx: Felt, i: Felt)
    requires Prime(PRIME)
    ensures Mul(s, Add(idx, Neg(i))) == 0 <==> s == 0 || idx == i
  {
    ProductZero(s, Add(idx, Neg(i)));
    DifferenceZero(idx, i);
  }

  lemma SmallSum(a: Felt, b: Felt)
    ensures a <= 1 && b <= 1 ==> Add(a, b) == a + b
  {
  }

  lemma OneHotIff(chosen: seq<Felt>, idx: Felt)
    ensures Selecting(chosen, idx, |chosen|) && idx < |chosen| && chosen[idx] == 1
       <==> idx < |chosen| && chosen == OneHot(idx, |chosen|)
  {
    if Selecting(chosen, idx, |chosen|) && idx < |chosen| && chosen[idx] == 1 {
      assert forall k :: 0 <= k < |chosen| ==> chosen[k] == OneHot(idx, |chosen|)[k];
    }
  }

  // ── Reads and writes ─────────────────────────────────────────────────────

  lemma Selected(bit: Felt, x: Felt)
    requires bit <= 1
    ensures Mul(bit, x) == if bit == 1 then x else 0
  {
  }

  lemma AddZeroes(x: Felt)
    ensures Add(0, x) == x && Add(x, 0) == x
  {
  }

  /** The selected sum: the element at the index, or 0 out of range. An empty
      block cannot be read. */
  method EmitSelectRead(arr: array<Felt>, idx: Felt, selectors: seq<Felt>) returns (r: Translated<Felt>)
    requires selectors == OneHot(idx, arr.Length)
    ensures r.Ok? <==> arr.Length > 0
    ensures r.Ok? ==> r.value == if idx < arr.Length then arr[idx] else 0
  {
    hide Add, Mul;
    var acc: Option<Felt> := None;
    for i := 0 to |selectors|
      invariant acc.Some? <==> i > 0
      invariant i > 0 ==> acc.value == if idx < i then arr[idx] else 0
    {
      Selected(selectors[i], arr[i]);
      var term := Mul(selectors[i], arr[i]);
      if acc.Some? {
        AddZeroes(acc.value);
        AddZeroes(term);
      }
      acc := Some(if acc.None? then term else Add(acc.value, term));
    }
    if acc.None? {
      return Err(UnsupportedOpcode("MemoryRead on zero-length block"));
    }
    return Ok(acc.value);
  }

  lemma MixedValue(bit: Felt, was: Felt, val: Felt)
    requires bit <= 1
    ensures Add(was, Mul(bit, Add(val, Neg(was)))) == if bit == 1 then val else was
  {
    Selected(bit, Add(val, Neg(was)));
    if bit == 1 {
      AddBack(was, val);
    }
  }

  lemma AddBack(was: Felt, val: Felt)
    ensures Add(was, Add(val, Neg(was))) == val
  {
    if was <= val {
      SubExact(val, was);
    } else {
      assert Add(val, Neg(was)) == PRIME - (was - val);
    }
  }

  /** Every slot is rewritten in place; only the selected one changes. */
  method EmitSelectWrite(arr: array<Felt>, idx: Felt, val: Felt, selectors: seq<Felt>)
    requires selectors == OneHot(idx, arr.Length)
    modifies arr
    ensures arr[..] == if idx < arr.Length then old(arr[..])[idx := val] else old(arr[..])
  {
    hide Add, Mul, Neg;
    for j := 0 to |selectors|
      invariant forall k :: 0 <= k < j ==> arr[k] == if idx == k then val else old(arr[k])
      invariant forall k :: j <= k < arr.Length ==> arr[k] == old(arr[k])
    {
      MixedValue(selectors[j], arr[j], val);
      var diff := Add(val, Neg(arr[j]));
      arr[j] := Add(arr[j], Mul(selectors[j], diff));
    }
  }

  // ── Opcodes ──────────────────────────────────────────────────────────────

  datatype MemoryOpcode =
    | MemoryInit(block: nat, init: seq<nat>)
    | MemoryRead(block: nat, index: Expression, value: nat)
    | MemoryWrite(block: nat, index: Expression, val: Expression)

  /** The witnesses an opcode reads. */
  function Reads(op: MemoryOpcode): set<nat> {
    match op
    case MemoryInit(_, init) => set w | w in init
    case MemoryRead(_, index, _) => Witnesses(index)
    case MemoryWrite(_, index, val) => Witnesses(index) + Witnesses(val)
  }

  function ValueOf(e: Expression, a: Assignment): Felt {
    Eval(e, a) % PRIME
  }

  type Arrays = map<nat, seq<Felt>>

  function Store(s: seq<Felt>, i: nat, v: Felt): seq<Felt>
    requires i < |s|
  {
    s[i := v]
  }

  function InitialArray(init: seq<nat>, a: Assignment): (s: seq<Felt>)
    ensures |s| == |init| && forall i :: 0 <= i < |init| ==> s[i] == At(a, init[i])
  {
    seq(|init|, i requires 0 <= i < |init| => At(a, init[i]))
  }

  /** A plain memory: what an opcode does to it under the values of the witnesses,
      or `None` if the block does not exist, the index is out of range, or the
      value claimed for a read is not the one stored. */
  function Plain(op: MemoryOpcode, a: Assignment, m: Arrays): Option<Arrays> {
    match op
    case MemoryInit(block, init) => Some(m[block := InitialArray(init, a)])
    case MemoryRead(block, index, value) =>
      if block in m && ValueOf(index, a) < |m[block]| && At(a, value) == m[block][ValueOf(index, a)] then Some(m) else None
    case MemoryWrite(block, index, val) =>
      if block in m && ValueOf(index, a) < |m[block]| then Some(m[block := Store(m[block], ValueOf(index, a), ValueOf(val, a))]) else None
  }

  function PlainRun(ops: seq<MemoryOpcode>, n: nat, a: Assignment): Option<Arrays>
    requires n <= |ops|
  {
    if n == 0 then Some(map[])
    else
      var before := PlainRun(ops, n - 1, a);
      if before.None? then None else Plain(ops[n - 1], a, before.value)
  }

  /** What `MemoryInit` supplies: at least one element, fewer than the prime. */
  ghost predicate SizesOk(ops: seq<MemoryOpcode>) {
    forall i :: 0 <= i < |ops| && ops[i].MemoryInit? ==> 0 < |ops[i].init| < PRIME
  }

  method InitMemory(writer: BlockWriter, block: nat, init: seq<nat>) returns (arr: array<Felt>)
    requires writer.Valid() && forall w :: w in init ==> w in writer.Assigned()
    modifies writer`witnessCache, writer`memories
    ensures writer.Valid() && writer.Assigned() == old(writer.Assigned())
    ensures fresh(arr) && writer.memories == old(writer.memories)[block := arr]
    ensures arr[..] == InitialArray(init, writer.Assigned())
  {
    ghost var a := writer.Assigned();
    arr := new Felt[|init|](_ => 0);
    for i := 0 to |init|
      invariant writer.Valid() && writer.Assigned() == a && writer.memories == old(writer.memories)
      invariant forall k :: 0 <= k < i ==> arr[k] == At(a, init[k])
    {
      assert init[i] in init;
      var val := writer.ReadWitness(init[i]);
      arr[i] := val;
    }
    writer.SetMemory(block, arr);
  }

  lemma ValueIs(v: Felt, e: Expression, a: Assignment)
    requires Cong(v, Eval(e, a), PRIME)
    ensures v == ValueOf(e, a)
  {
    CongIffMod(v, Eval(e, a), PRIME);
    SmallMod(v, PRIME);
  }

  method EmitValue(writer: BlockWriter, e: Expression) returns (v: Felt)
    requires writer.Valid() && Witnesses(e) <= writer.Assigned().Keys
    modifies writer`witnessCache
    ensures writer.Valid() && writer.Assigned() == old(writer.Assigned())
    ensures v == ValueOf(e, writer.Assigned())
  {
    hide Eval;
    v := EmitExpression(writer, e);
    ValueIs(v, e, writer.Assigned());
  }

  /** The selectors of an operation: computed, or chosen by the prover. */
  datatype Phase = Compute | Constrain(chosen: seq<Felt>)

  /** Selectors for one access, and whether their constraints accept. */
  method EmitSelectors(phase: Phase, idx: Felt, len: nat) returns (selectors: seq<Felt>, accepted: bool)
    requires 0 < len < PRIME && Prime(PRIME) && (phase.Constrain? ==> |phase.chosen| == len)
    ensures accepted ==> selectors == OneHot(idx, len)
    ensures phase.Compute? ==> accepted
    ensures phase.Constrain? ==> (accepted <==> idx < len && phase.chosen == OneHot(idx, len))
  {
    if phase.Compute? {
      selectors := SelectorsCompute(idx, len);
      return selectors, true;
    }
    accepted := SelectorsConstrain(idx, phase.chosen);
    selectors := phase.chosen;
  }

  // ── Runs ─────────────────────────────────────────────────────────────────

  /** The state of a run: the live arrays hold what the plain memory holds. */
  ghost predicate Live(writer: BlockWriter, m: Arrays)
    reads writer, writer.Arrays()
  {
    writer.Valid() && writer.Contents() == m && forall b :: b in m ==> 0 < |m[b]| < PRIME
  }

  /** Reading values leaves the arrays alone. */
  method EmitLive(writer: BlockWriter, e: Expression, ghost m: Arrays) returns (v: Felt)
    requires Live(writer, m) && Witnesses(e) <= writer.Assigned().Keys
    modifies writer`witnessCache
    ensures Live(writer, m) && writer.Assigned() == old(writer.Assigned())
    ensures v == ValueOf(e, writer.Assigned())
  {
    hide Eval, Witnesses, ValueOf;
    v := EmitValue(writer, e);
  }

  method ReadLive(writer: BlockWriter, w: nat, ghost m: Arrays) returns (v: Felt)
    requires Live(writer, m) && w in writer.Assigned()
    modifies writer`witnessCache
    ensures Live(writer, m) && writer.Assigned() == old(writer.Assigned())
    ensures v == At(writer.Assigned(), w)
  {
    v := writer.ReadWitness(w);
  }

  method SolveLive(writer: BlockWriter, w: nat, v: Felt, ghost m: Arrays)
    requires Live(writer, m) && writer.known.Some?
    modifies writer`witnessCache, writer`members, writer`known
    ensures Live(writer, m) && writer.known.Some? && writer.Assigned() == old(writer.Assigned())[w := v]
  {
    writer.SolveAs(w, v);
  }

  lemma LiveArray(writer: BlockWriter, m: Arrays, block: nat)
    requires Live(writer, m)
    ensures block in writer.memories <==> block in m
    ensures block in m ==> writer.memories[block][..] == m[block] && 0 < writer.memories[block].Length < PRIME
    ensures block in m ==> writer.memories[block] in writer.Arrays()
  {
    assert writer.Contents().Keys == writer.memories.Keys;
    if block in m {
      assert writer.Contents()[block] == writer.memories[block][..];
    }
  }

  method ConstrainInit(writer: BlockWriter, block: nat, init: seq<nat>, ghost m: Arrays)
    requires Live(writer, m) && 0 < |init| < PRIME && forall w :: w in init ==> w in writer.Assigned()
    modifies writer`witnessCache, writer`memories
    ensures writer.Assigned() == old(writer.Assigned()) && fresh(writer.Arrays() - old(writer.Arrays()))
    ensures Live(writer, m[block := InitialArray(init, writer.Assigned())])
  {
    ghost var before := writer.memories;
    forall b | b in before
      ensures before[b] in writer.Arrays()
    {
    }
    var arr := InitMemory(writer, block, init);
    assert writer.Contents() == m[block := arr[..]];
  }

  /** The array an access goes to, and the selectors it is given. */
  method Access(writer: BlockWriter, block: nat, idx: Felt, phase: Phase, ghost m: Arrays)
    returns (r: Translated<(array<Felt>, seq<Felt>, bool)>)
    requires Prime(PRIME) && Live(writer, m) && (phase.Constrain? && block in m ==> |phase.chosen| == |m[block]|)
    ensures Live(writer, m) && writer.Valid()
    ensures r.Ok? <==> block in m
    ensures r.Ok? ==>
      var (arr, selectors, accepted) := r.value;
      && block in writer.memories && arr == writer.memories[block] && arr in writer.Arrays()
      && arr[..] == m[block] && 0 < arr.Length < PRIME
      && (accepted ==> selectors == OneHot(idx, arr.Length))
      && (phase.Compute? ==> accepted)
      && (phase.Constrain? ==> (accepted <==> idx < arr.Length && phase.chosen == OneHot(idx, arr.Length)))
  {
    hide Prime;
    LiveArray(writer, m, block);
    if block !in writer.memories {
      return Err(UnsupportedOpcode("MemoryOp before MemoryInit"));
    }
    var arr := writer.memories[block];
    var selectors, accepted := EmitSelectors(phase, idx, arr.Length);
    return Ok((arr, selectors, accepted));
  }

  /** A write to one live array is an update of the plain memory. */
  lemma Stored(writer: BlockWriter, m: Arrays, block: nat, s: seq<Felt>, was: map<nat, array<Felt>>)
    requires writer.Valid() && writer.memories == was && block in m && |s| == |m[block]| && 0 < |s| < PRIME
    requires was.Keys == m.Keys && was[block][..] == s
    requires forall b :: b in m && b != block ==> was[b][..] == m[b]
    requires forall b :: b in m ==> 0 < |m[b]| < PRIME
    ensures Live(writer, m[block := s])
  {
    assert writer.Contents() == m[block := s];
  }

  lemma Distinct(writer: BlockWriter, m: Arrays, block: nat)
    requires Live(writer, m) && block in m
    ensures forall b :: b in m && b != block ==> b in writer.memories && writer.memories[b] != writer.memories[block] && writer.memories[b][..] == m[b]
    ensures writer.memories.Keys == m.Keys
  {
    assert writer.Contents().Keys == writer.memories.Keys;
    forall b | b in m
      ensures writer.memories[b][..] == m[b]
    {
      assert writer.Contents()[b] == writer.memories[b][..];
    }
  }

  /** The write gadget on the array of a block. */
  method WriteBlock(writer: BlockWriter, block: nat, arr: array<Felt>, idx: Felt, val: Felt, selectors: seq<Felt>, ghost m: Arrays)
    requires Live(writer, m) && block in m && block in writer.memories && arr == writer.memories[block] && arr[..] == m[block]
    requires selectors == OneHot(idx, arr.Length)
    modifies arr
    ensures Live(writer, m[block := if idx < |m[block]| then Store(m[block], idx, val) else m[block]])
  {
    hide OneHot;
    ghost var was := writer.memories;
    Distinct(writer, m, block);
    LiveArray(writer, m, block);
    EmitSelectWrite(arr, idx, val, selectors);
    Stored(writer, m, block, arr[..], was);
  }

  method ConstrainRead(writer: BlockWriter, block: nat, index: Expression, value: nat, chosen: seq<Felt>, ghost m: Arrays) returns (r: Translated<bool>)
    requires Prime(PRIME) && Live(writer, m) && Witnesses(index) <= writer.Assigned().Keys && value in writer.Assigned()
    requires block in m ==> |chosen| == |m[block]|
    modifies writer`witnessCache
    ensures Live(writer, m) && writer.Assigned() == old(writer.Assigned())
    ensures r.Ok? <==> block in m
    ensures r.Ok? ==> (r.value <==> Plain(MemoryRead(block, index, value), writer.Assigned(), m).Some?
                                    && chosen == OneHot(ValueOf(index, writer.Assigned()), |chosen|))
  {
    hide Prime, Eval, Witnesses, OneHot, Live, ValueOf;
    var idx := EmitLive(writer, index, m);
    var access := Access(writer, block, idx, Constrain(chosen), m);
    if access.Err? {
      return Err(access.error);
    }
    var (arr, selectors, accepted) := access.value;
    assert |arr[..]| == arr.Length;
    if !accepted {
      return Ok(false);
    }
    var expected := EmitSelectRead(arr, idx, selectors);
    var stored := ReadLive(writer, value, m);
    return Ok(stored == expected.value);
  }

  method ConstrainWrite(writer: BlockWriter, block: nat, index: Expression, val: Expression, chosen: seq<Felt>, ghost m: Arrays)
    returns (r: Translated<bool>)
    requires Prime(PRIME) && Live(writer, m) && Witnesses(index) + Witnesses(val) <= writer.Assigned().Keys
    requires block in m ==> |chosen| == |m[block]|
    modifies writer`witnessCache, writer.Arrays()
    ensures writer.Valid() && writer.Assigned() == old(writer.Assigned()) && writer.memories == old(writer.memories)
    ensures r.Ok? <==> block in m
    ensures r.Ok? ==> (r.value <==> Plain(MemoryWrite(block, index, val), writer.Assigned(), m).Some?
                                    && chosen == OneHot(ValueOf(index, writer.Assigned()), |chosen|))
    ensures r.Ok? && r.value ==> Live(writer, Plain(MemoryWrite(block, index, val), writer.Assigned(), m).value)
    ensures r.Err? || !r.value ==> Live(writer, m)
  {
    hide Prime, Eval, Witnesses, OneHot, Live, ValueOf;
    var idx := EmitLive(writer, index, m);
    var v := EmitLive(writer, val, m);
    var access := Access(writer, block, idx, Constrain(chosen), m);
    if access.Err? {
      return Err(access.error);
    }
    var (arr, selectors, accepted) := access.value;
    assert |arr[..]| == arr.Length;
    if !accepted {
      return Ok(false);
    }
    WriteBlock(writer, block, arr, idx, v, selectors, m);
    return Ok(true);
  }

  // ── Runs of @constrain ───────────────────────────────────────────────────

  /** The selectors chosen for an access to a block of `len` elements. */
  function Chosen(choice: seq<Felt>, len: nat): (s: seq<Felt>)
    ensures |s| == len
  {
    seq(len, i requires 0 <= i < len => if i < |choice| then choice[i] else 0)
  }

  /** The choice is the one-hot vector of the index. */
  ghost predicate Forced(op: MemoryOpcode, a: Assignment, m: Arrays, choice: seq<Felt>) {
    op.MemoryInit? || (op.block in m && Chosen(choice, |m[op.block]|) == OneHot(ValueOf(op.index, a), |m[op.block]|))
  }

  ghost predicate Assignable(op: MemoryOpcode, a: Assignment) {
    Reads(op) <= a.Keys && (op.MemoryRead? ==> op.value in a) && (op.MemoryInit? ==> 0 < |op.init| < PRIME)
  }

  method ConstrainOpcode(writer: BlockWriter, op: MemoryOpcode, choice: seq<Felt>, ghost m: Arrays)
    returns (r: Translated<bool>, ghost next: Arrays)
    requires Prime(PRIME) && Live(writer, m) && Assignable(op, writer.Assigned())
    modifies writer`witnessCache, writer`memories, writer.Arrays()
    ensures writer.Assigned() == old(writer.Assigned()) && Live(writer, next)
    ensures fresh(writer.Arrays() - old(writer.Arrays()))
    ensures r.Ok? <==> op.MemoryInit? || op.block in m
    ensures next.Keys == if op.MemoryInit? then m.Keys + {op.block} else m.Keys
    ensures r.Ok? ==> (r.value <==> Plain(op, writer.Assigned(), m).Some? && Forced(op, writer.Assigned(), m, choice))
    ensures r.Ok? && r.value ==> Some(next) == Plain(op, writer.Assigned(), m)
  {
    hide Prime, Eval, Witnesses, OneHot;
    match op {
      case MemoryInit(block, init) =>
        ConstrainInit(writer, block, init, m);
        r, next := Ok(true), m[block := InitialArray(init, writer.Assigned())];
      case MemoryRead(block, index, value) =>
        LiveArray(writer, m, block);
        var len := if block in writer.memories then writer.memories[block].Length else 0;
        r := ConstrainRead(writer, block, index, value, Chosen(choice, len), m);
        next := m;
      case MemoryWrite(block, index, val) =>
        LiveArray(writer, m, block);
        var len := if block in writer.memories then writer.memories[block].Length else 0;
        r := ConstrainWrite(writer, block, index, val, Chosen(choice, len), m);
        next := if r.Ok? && r.value then Plain(op, writer.Assigned(), m).value else m;
    }
  }

  /** Every access comes after an initialisation of its block. */
  ghost predicate Initialised(ops: seq<MemoryOpcode>, n: nat)
    requires n <= |ops|
  {
    forall i :: 0 <= i < n && !ops[i].MemoryInit? ==> ops[i].block in Blocks(ops, i)
  }

  function Blocks(ops: seq<MemoryOpcode>, n: nat): set<nat>
    requires n <= |ops|
  {
    if n == 0 then {} else Blocks(ops, n - 1) + (if ops[n - 1].MemoryInit? then {ops[n - 1].block} else {})
  }

  /** The first `n` choices are the forced ones. */
  ghost predicate AllForced(ops: seq<MemoryOpcode>, n: nat, a: Assignment, choices: seq<seq<Felt>>)
    requires n <= |ops| == |choices|
  {
    forall i :: 0 <= i < n ==> PlainRun(ops, i, a).Some? && Forced(ops[i], a, PlainRun(ops, i, a).value, choices[i])
  }

  /** The state of a constrained run before opcode `i`. */
  ghost predicate Running(ops: seq<MemoryOpcode>, choices: seq<seq<Felt>>, a: Assignment, i: nat, m: Arrays, accepted: bool)
    requires i <= |ops| == |choices|
  {
    && m.Keys == Blocks(ops, i) && Initialised(ops, i)
    && (accepted <==> PlainRun(ops, i, a).Some? && AllForced(ops, i, a, choices))
    && (accepted ==> PlainRun(ops, i, a) == Some(m))
  }

  lemma LiveStart(writer: BlockWriter)
    requires writer.Valid() && writer.memories == map[]
    ensures Live(writer, map[])
  {
    assert writer.Contents() == map[];
  }

  lemma RunStart(ops: seq<MemoryOpcode>, choices: seq<seq<Felt>>, a: Assignment)
    requires |ops| == |choices|
    ensures Running(ops, choices, a, 0, map[], true)
  {
  }

  lemma RunStep(ops: seq<MemoryOpcode>, choices: seq<seq<Felt>>, a: Assignment, i: nat, m: Arrays, accepted: bool, step: bool, next: Arrays)
    requires i < |ops| == |choices| && Running(ops, choices, a, i, m, accepted)
    requires ops[i].MemoryInit? || ops[i].block in m
    requires next.Keys == if ops[i].MemoryInit? then m.Keys + {ops[i].block} else m.Keys
    requires step <==> Plain(ops[i], a, m).Some? && Forced(ops[i], a, m, choices[i])
    requires step ==> Some(next) == Plain(ops[i], a, m)
    ensures Running(ops, choices, a, i + 1, next, accepted && step)
  {
    hide Plain, Forced, PlainRun, AllForced, Blocks, Initialised;
    PlainRunStep(ops, i, a);
    AllForcedStep(ops, i, a, choices);
    BlocksStep(ops, i);
  }

  lemma PlainRunStep(ops: seq<MemoryOpcode>, i: nat, a: Assignment)
    requires i < |ops|
    ensures var before := PlainRun(ops, i, a);
            PlainRun(ops, i + 1, a) == if before.None? then None else Plain(ops[i], a, before.value)
  {
  }

  lemma BlocksStep(ops: seq<MemoryOpcode>, i: nat)
    requires i < |ops|
    ensures Blocks(ops, i + 1) == if ops[i].MemoryInit? then Blocks(ops, i) + {ops[i].block} else Blocks(ops, i)
    ensures Initialised(ops, i) && (ops[i].MemoryInit? || ops[i].block in Blocks(ops, i)) ==> Initialised(ops, i + 1)
  {
  }

  lemma AllForcedStep(ops: seq<MemoryOpcode>, i: nat, a: Assignment, choices: seq<seq<Felt>>)
    requires i < |ops| == |choices|
    ensures AllForced(ops, i + 1, a, choices) <==>
      AllForced(ops, i, a, choices) && PlainRun(ops, i, a).Some? && Forced(ops[i], a, PlainRun(ops, i, a).value, choices[i])
  {
    hide PlainRun, Forced;
  }

  lemma RunFails(ops: seq<MemoryOpcode>, choices: seq<seq<Felt>>, a: Assignment, i: nat, m: Arrays, accepted: bool)
    requires i < |ops| == |choices| && Running(ops, choices, a, i, m, accepted)
    requires !ops[i].MemoryInit? && ops[i].block !in m
    ensures !Initialised(ops, |ops|)
  {
  }

  lemma RunEnds(ops: seq<MemoryOpcode>, choices: seq<seq<Felt>>, a: Assignment, m: Arrays, accepted: bool)
    requires |ops| == |choices| && Running(ops, choices, a, |ops|, m, accepted)
    ensures Initialised(ops, |ops|)
    ensures accepted <==> PlainRun(ops, |ops|, a).Some? && AllForced(ops, |ops|, a, choices)
  {
  }

  method ConstrainOpcodes(ops: seq<MemoryOpcode>, choices: seq<seq<Felt>>, writer: BlockWriter, ghost a: Assignment) returns (r: Translated<bool>)
    requires Prime(PRIME) && |choices| == |ops| && writer.Assigned() == a && Live(writer, map[]) && writer.memories == map[]
    requires forall i :: 0 <= i < |ops| ==> Assignable(ops[i], a)
    modifies writer
    ensures r.Ok? <==> Initialised(ops, |ops|)
    ensures r.Ok? ==> (r.value <==> PlainRun(ops, |ops|, a).Some? && AllForced(ops, |ops|, a, choices))
  {
    hide Live, Prime, Plain, Forced, Assignable, Running, Initialised, PlainRun, AllForced;
    ghost var m: Arrays := map[];
    var accepted := true;
    RunStart(ops, choices, a);
    for i := 0 to |ops|
      invariant fresh(writer.Arrays()) && Live(writer, m) && writer.Assigned() == a
      invariant Running(ops, choices, a, i, m, accepted)
    {
      var step;
      ghost var next;
      step, next := ConstrainOpcode(writer, ops[i], choices[i], m);
      if step.Err? {
        RunFails(ops, choices, a, i, m, accepted);
        return Err(step.error);
      }
      RunStep(ops, choices, a, i, m, accepted, step.value, next);
      accepted := accepted && step.value;
      m := next;
    }
    RunEnds(ops, choices, a, m, accepted);
    return Ok(accepted);
  }

  /** The constraints of a run accept exactly the forced selectors of a run that a
      plain memory accepts: every index in range, every read the stored value. */
  method ConstrainRun(ops: seq<MemoryOpcode>, choices: seq<seq<Felt>>, inputs: Assignment, self: Assignment) returns (r: Translated<bool>)
    requires Prime(PRIME) && |choices| == |ops|
    requires forall w :: w in inputs && w in self ==> inputs[w] == self[w]
    requires forall i :: 0 <= i < |ops| ==> Assignable(ops[i], self + inputs)
    ensures r.Ok? <==> Initialised(ops, |ops|)
    ensures r.Ok? ==> (r.value <==> PlainRun(ops, |ops|, self + inputs).Some? && AllForced(ops, |ops|, self + inputs, choices))
  {
    hide Live, Prime, Assignable, Initialised, PlainRun, AllForced;
    var writer := new BlockWriter.ForConstrain(inputs, self);
    LiveStart(writer);
    r := ConstrainOpcodes(ops, choices, writer, self + inputs);
  }

  /** Of two accepted choices of selectors both are the same: the one-hot ones. */
  lemma ForcedUnique(ops: seq<MemoryOpcode>, a: Assignment, c: seq<seq<Felt>>, d: seq<seq<Felt>>, i: nat)
    requires |ops| == |c| == |d| && i < |ops| && !ops[i].MemoryInit?
    requires AllForced(ops, |ops|, a, c) && AllForced(ops, |ops|, a, d)
    ensures var len := |PlainRun(ops, i, a).value[ops[i].block]|;
            ops[i].block in PlainRun(ops, i, a).value && Chosen(c[i], len) == Chosen(d[i], len) == OneHot(ValueOf(ops[i].index, a), len)
  {
    assert Forced(ops[i], a, PlainRun(ops, i, a).value, c[i]);
    assert Forced(ops[i], a, PlainRun(ops, i, a).value, d[i]);
  }

  // ── Runs of @compute ─────────────────────────────────────────────────────

  datatype Computed = Computed(a: Assignment, m: Arrays)

  /** What `@compute` does: reads make a witness known; out of range a read gives
      0 and a write nothing. */
  function ComputeStep(op: MemoryOpcode, s: Computed): Option<Computed> {
    match op
    case MemoryInit(block, init) => Some(s.(m := s.m[block := InitialArray(init, s.a)]))
    case MemoryRead(block, index, value) =>
      if block !in s.m then None
      else
        var idx := ValueOf(index, s.a);
        Some(s.(a := s.a[value := if idx < |s.m[block]| then s.m[block][idx] else 0]))
    case MemoryWrite(block, index, val) =>
      if block !in s.m then None
      else
        var idx := ValueOf(index, s.a);
        Some(s.(m := s.m[block := if idx < |s.m[block]| then Store(s.m[block], idx, ValueOf(val, s.a)) else s.m[block]]))
  }

  function ComputedRun(ops: seq<MemoryOpcode>, n: nat, inputs: Assignment): Option<Computed>
    requires n <= |ops|
  {
    if n == 0 then Some(Computed(inputs, map[]))
    else
      var before := ComputedRun(ops, n - 1, inputs);
      if before.None? then None else ComputeStep(ops[n - 1], before.value)
  }

  method ComputeRead(writer: BlockWriter, block: nat, index: Expression, value: nat, ghost m: Arrays) returns (r: Translated<()>)
    requires Prime(PRIME) && Live(writer, m) && writer.known.Some? && Witnesses(index) <= writer.Assigned().Keys
    modifies writer`witnessCache, writer`members, writer`known
    ensures Live(writer, m) && writer.known.Some?
    ensures r.Ok? <==> block in m
    ensures r.Ok? ==> Some(Computed(writer.Assigned(), m)) == ComputeStep(MemoryRead(block, index, value), Computed(old(writer.Assigned()), m))
  {
    hide Prime, Eval, Witnesses, OneHot, Live, ValueOf;
    var idx := EmitLive(writer, index, m);
    var access := Access(writer, block, idx, Compute, m);
    if access.Err? {
      return Err(access.error);
    }
    var (arr, selectors, _) := access.value;
    assert |arr[..]| == arr.Length;
    var result := EmitSelectRead(arr, idx, selectors);
    SolveLive(writer, value, result.value, m);
    return Ok(());
  }

  method ComputeWrite(writer: BlockWriter, block: nat, index: Expression, val: Expression, ghost m: Arrays)
    returns (r: Translated<()>, ghost next: Arrays)
    requires Prime(PRIME) && Live(writer, m) && Witnesses(index) + Witnesses(val) <= writer.Assigned().Keys
    modifies writer`witnessCache, writer.Arrays()
    ensures Live(writer, next) && writer.Assigned() == old(writer.Assigned()) && writer.memories == old(writer.memories)
    ensures r.Ok? <==> block in m
    ensures r.Ok? ==> Some(Computed(writer.Assigned(), next)) == ComputeStep(MemoryWrite(block, index, val), Computed(writer.Assigned(), m))
  {
    hide Prime, Eval, Witnesses, OneHot, Live, ValueOf;
    next := m;
    var idx := EmitLive(writer, index, m);
    var v := EmitLive(writer, val, m);
    var access := Access(writer, block, idx, Compute, m);
    if access.Err? {
      return Err(access.error), next;
    }
    var (arr, selectors, _) := access.value;
    assert |arr[..]| == arr.Length;
    WriteBlock(writer, block, arr, idx, v, selectors, m);
    next := m[block := if idx < |m[block]| then Store(m[block], idx, v) else m[block]];
    return Ok(()), next;
  }

  method ComputeOpcode(writer: BlockWriter, op: MemoryOpcode, ghost m: Arrays) returns (r: Translated<()>, ghost next: Arrays)
    requires Prime(PRIME) && Live(writer, m) && writer.known.Some? && Reads(op) <= writer.Assigned().Keys
    requires op.MemoryInit? ==> 0 < |op.init| < PRIME
    modifies writer`witnessCache, writer`members, writer`known, writer`memories, writer.Arrays()
    ensures Live(writer, next) && writer.known.Some?
    ensures fresh(writer.Arrays() - old(writer.Arrays()))
    ensures r.Ok? <==> ComputeStep(op, Computed(old(writer.Assigned()), m)).Some?
    ensures r.Ok? ==> Some(Computed(writer.Assigned(), next)) == ComputeStep(op, Computed(old(writer.Assigned()), m))
  {
    hide Prime, Eval, Witnesses, OneHot;
    next := m;
    match op {
      case MemoryInit(block, init) =>
        ConstrainInit(writer, block, init, m);
        next := m[block := InitialArray(init, writer.Assigned())];
        r := Ok(());
      case MemoryRead(block, index, value) =>
        r := ComputeRead(writer, block, index, value, m);
      case MemoryWrite(block, index, val) =>
        r, next := ComputeWrite(writer, block, index, val, m);
    }
  }

  /** Every witness an opcode reads is an input or was read before. */
  ghost predicate Supplied(ops: seq<MemoryOpcode>, inputs: Assignment) {
    forall i :: 0 <= i < |ops| && ComputedRun(ops, i, inputs).Some? ==> Reads(ops[i]) <= ComputedRun(ops, i, inputs).value.a.Keys
  }

  method ComputeOpcodes(ops: seq<MemoryOpcode>, writer: BlockWriter, ghost inputs: Assignment) returns (r: Translated<()>)
    requires Prime(PRIME) && SizesOk(ops) && Supplied(ops, inputs)
    requires writer.Assigned() == inputs && Live(writer, map[]) && writer.memories == map[] && writer.known.Some?
    modifies writer
    ensures r.Ok? <==> ComputedRun(ops, |ops|, inputs).Some?
    ensures r.Ok? ==> writer.Assigned() == ComputedRun(ops, |ops|, inputs).value.a
  {
    hide Live, Prime, ComputeStep, Reads;
    ghost var m: Arrays := map[];
    for i := 0 to |ops|
      invariant fresh(writer.Arrays()) && Live(writer, m) && writer.known.Some?
      invariant ComputedRun(ops, i, inputs) == Some(Computed(writer.Assigned(), m))
    {
      var step;
      ghost var next;
      step, next := ComputeOpcode(writer, ops[i], m);
      if step.Err? {
        NeverAgain(ops, i + 1, |ops|, inputs);
        return Err(step.error);
      }
      m := next;
    }
    return Ok(());
  }

  method ComputeRun(ops: seq<MemoryOpcode>, inputs: Assignment) returns (r: Translated<Assignment>)
    requires Prime(PRIME) && SizesOk(ops) && Supplied(ops, inputs)
    ensures r.Ok? <==> ComputedRun(ops, |ops|, inputs).Some?
    ensures r.Ok? ==> r.value == ComputedRun(ops, |ops|, inputs).value.a
  {
    hide Live, Prime, SizesOk, Supplied, ComputedRun;
    var writer := new BlockWriter.ForCompute(inputs);
    LiveStart(writer);
    var done := ComputeOpcodes(ops, writer, inputs);
    if done.Err? {
      return Err(done.error);
    }
    var values := writer.members + writer.witnessCache;
    return Ok(values);
  }

  lemma {:induction false} NeverAgain(ops: seq<MemoryOpcode>, m: nat, n: nat, inputs: Assignment)
    requires m <= n <= |ops| && ComputedRun(ops, m, inputs).None?
    ensures ComputedRun(ops, n, inputs).None?
    decreases n
  {
    if m < n {
      NeverAgain(ops, m, n - 1, inputs);
    }
  }

  // ── What a computed run satisfies ────────────────────────────────────────

  /** Every access of the run is in range. */
  ghost predicate InBounds(ops: seq<MemoryOpcode>, inputs: Assignment) {
    forall i :: 0 <= i < |ops| && !ops[i].MemoryInit? && ComputedRun(ops, i, inputs).Some? ==>
      var s := ComputedRun(ops, i, inputs).value;
      ops[i].block in s.m && ValueOf(ops[i].index, s.a) < |s.m[ops[i].block]|
  }

  /** A read gives its value to a witness that has none yet. */
  ghost predicate FreshReads(ops: seq<MemoryOpcode>, inputs: Assignment) {
    forall i :: 0 <= i < |ops| && ops[i].MemoryRead? && ComputedRun(ops, i, inputs).Some? ==>
      ops[i].value !in ComputedRun(ops, i, inputs).value.a
  }

  lemma ValueKept(e: Expression, a: Assignment, b: Assignment)
    requires Extends(b, a) && Witnesses(e) <= a.Keys
    ensures ValueOf(e, a) == ValueOf(e, b)
  {
    assert AgreeOff(e, None, a, b);
    PartsAgree(e, None, a, b);
  }

  /** One step of the computation is a step of the plain memory under any later
      assignment. */
  lemma StepIsPlain(op: MemoryOpcode, s: Computed, t: Computed, b: Assignment)
    requires ComputeStep(op, s) == Some(t) && Reads(op) <= s.a.Keys && Extends(b, t.a)
    requires op.MemoryRead? ==> op.value !in s.a
    requires !op.MemoryInit? ==> op.block in s.m && ValueOf(op.index, s.a) < |s.m[op.block]|
    ensures Extends(t.a, s.a) && Extends(b, s.a)
    ensures Plain(op, b, s.m) == Some(t.m)
  {
    hide Eval, Witnesses;
    match op
    case MemoryInit(block, init) =>
      assert forall i :: 0 <= i < |init| ==> init[i] in Reads(op);
      assert InitialArray(init, b) == InitialArray(init, s.a);
    case MemoryRead(block, index, value) =>
      ValueKept(index, s.a, b);
    case MemoryWrite(block, index, val) =>
      ValueKept(index, s.a, b);
      ValueKept(val, s.a, b);
  }

  /** The selectors a run forces: one-hot at the index of each access. */
  lemma {:induction false} ForcedExist(ops: seq<MemoryOpcode>, n: nat, a: Assignment) returns (choices: seq<seq<Felt>>)
    requires n <= |ops| && PlainRun(ops, n, a).Some?
    ensures |choices| == |ops| && AllForced(ops, n, a, choices)
    decreases n
  {
    hide Plain, ValueOf, OneHot, AllForced;
    if n == 0 {
      choices := seq(|ops|, _ => []);
      NothingForced(ops, a, choices);
    } else {
      PlainRunStep(ops, n - 1, a);
      choices := ForcedExist(ops, n - 1, a);
      var op, m := ops[n - 1], PlainRun(ops, n - 1, a).value;
      var choice := PlainForces(op, a, m);
      ForcedKept(ops, n - 1, a, choices, choice);
      choices := choices[n - 1 := choice];
      AllForcedStep(ops, n - 1, a, choices);
    }
  }

  lemma ForcedKept(ops: seq<MemoryOpcode>, n: nat, a: Assignment, choices: seq<seq<Felt>>, choice: seq<Felt>)
    requires n < |ops| == |choices| && AllForced(ops, n, a, choices)
    ensures AllForced(ops, n, a, choices[n := choice])
  {
    hide PlainRun, Forced;
  }

  lemma NothingForced(ops: seq<MemoryOpcode>, a: Assignment, choices: seq<seq<Felt>>)
    requires |choices| == |ops|
    ensures AllForced(ops, 0, a, choices)
  {
  }

  /** An opcode the plain memory accepts has an accepting choice. */
  lemma PlainForces(op: MemoryOpcode, a: Assignment, m: Arrays) returns (choice: seq<Felt>)
    requires Plain(op, a, m).Some?
    ensures Forced(op, a, m, choice)
  {
    hide ValueOf;
    choice := if op.MemoryInit? then [] else OneHot(ValueOf(op.index, a), |m[op.block]|);
  }

  /** The values `@compute` finds are accepted by the plain memory. */
  lemma {:induction false} ComputeMeetsConstraints(ops: seq<MemoryOpcode>, n: nat, inputs: Assignment, b: Assignment)
    requires n <= |ops| && ComputedRun(ops, n, inputs).Some? && Extends(b, ComputedRun(ops, n, inputs).value.a)
    requires Supplied(ops, inputs) && InBounds(ops, inputs) && FreshReads(ops, inputs)
    ensures PlainRun(ops, n, b) == Some(ComputedRun(ops, n, inputs).value.m)
    decreases n
  {
    hide ComputeStep, Plain, PlainRun, Reads, Extends, ComputedRun, Supplied, InBounds, FreshReads, ValueOf;
    if n == 0 {
      NothingRun(ops, inputs, b);
    } else {
      ComputedFacts(ops, n, inputs);
      var s, t := ComputedRun(ops, n - 1, inputs).value, ComputedRun(ops, n, inputs).value;
      StepIsPlain(ops[n - 1], s, t, b);
      ComputeMeetsConstraints(ops, n - 1, inputs, b);
      PlainRunStep(ops, n - 1, b);
    }
  }

  /** So there are selectors with which `@constrain` accepts them: the condition
      of `ConstrainRun` holds. */
  lemma ComputedIsAccepted(ops: seq<MemoryOpcode>, inputs: Assignment, b: Assignment) returns (choices: seq<seq<Felt>>)
    requires ComputedRun(ops, |ops|, inputs).Some? && Extends(b, ComputedRun(ops, |ops|, inputs).value.a)
    requires Supplied(ops, inputs) && InBounds(ops, inputs) && FreshReads(ops, inputs)
    ensures |choices| == |ops| && PlainRun(ops, |ops|, b).Some? && AllForced(ops, |ops|, b, choices)
  {
    ComputeMeetsConstraints(ops, |ops|, inputs, b);
    choices := ForcedExist(ops, |ops|, b);
  }

  lemma NothingRun(ops: seq<MemoryOpcode>, inputs: Assignment, b: Assignment)
    ensures PlainRun(ops, 0, b) == Some(map[]) && ComputedRun(ops, 0, inputs) == Some(Computed(inputs, map[]))
  {
  }

  lemma ComputedFacts(ops: seq<MemoryOpcode>, n: nat, inputs: Assignment)
    requires 0 < n <= |ops| && ComputedRun(ops, n, inputs).Some?
    requires Supplied(ops, inputs) && InBounds(ops, inputs) && FreshReads(ops, inputs)
    ensures ComputedRun(ops, n - 1, inputs).Some?
    ensures var op, s := ops[n - 1], ComputedRun(ops, n - 1, inputs).value;
            && ComputeStep(op, s) == ComputedRun(ops, n, inputs)
            && Reads(op) <= s.a.Keys
            && (op.MemoryRead? ==> op.value !in s.a)
            && (!op.MemoryInit? ==> op.block in s.m && ValueOf(op.index, s.a) < |s.m[op.block]|)
  {
    hide ComputeStep, Reads, ValueOf;
  }
}
