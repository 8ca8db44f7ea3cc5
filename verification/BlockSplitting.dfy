/** Splitting bytecode into blocks: `split_blocks`, `index_ranges`, `classify`. */
module BlockSplitting {
  import opened Graphs
  import opened CfgTypes
  import opened Views

  /** Flow opcodes carry what the splitter reads; all others are `Body`. */
  datatype Opcode =
    | JumpOp(location: nat)
    | JumpIfOp(condition: nat, location: nat)
    | CallOp(location: nat)
    | ReturnOp
    | StopOp
    | TrapOp
    | Body

  function FlowTarget(op: Opcode): Option<nat> {
    match op
    case JumpOp(l) => Some(l)
    case JumpIfOp(_, l) => Some(l)
    case CallOp(l) => Some(l)
    case _ => None
  }

  // ── What the bytecode does, one program counter step at a time ───────────

  /** Where control goes from `pc`: for a call, into the callee or past it. */
  predicate Step(code: seq<Opcode>, pc: nat, next: nat) {
    && pc < |code|
    && match code[pc]
       case JumpOp(l) => next == l
       case JumpIfOp(_, l) => next == l || next == pc + 1
       case CallOp(l) => next == l || next == pc + 1
       case Body => next == pc + 1
       case _ => false
  }

  // ── Blocks ───────────────────────────────────────────────────────────────

  ghost predicate IsTarget(code: seq<Opcode>, i: nat, n: nat)
    requires n <= |code|
  {
    exists j :: 0 <= j < n && FlowTarget(code[j]) == Some(i)
  }

  /** Blocks start at 0, at branch targets and after flow opcodes. */
  ghost predicate IsStart(code: seq<Opcode>, i: nat) {
    i < |code| && (i == 0 || IsTarget(code, i, |code|) || code[i - 1] != Body)
  }

  ghost predicate StartsRange(ranges: seq<(nat, nat)>, i: nat) {
    exists k :: 0 <= k < |ranges| && ranges[k].0 == i
  }

  /** The blocks cut the bytecode into consecutive non-empty stretches, one at
      each start. */
  ghost predicate Partition(code: seq<Opcode>, ranges: seq<(nat, nat)>) {
    && |ranges| > 0 && ranges[0].0 == 0 && ranges[|ranges| - 1].1 == |code|
    && (forall k :: 0 <= k < |ranges| ==> ranges[k].0 < ranges[k].1 <= |code|)
    && (forall k :: 0 <= k < |ranges| - 1 ==> ranges[k].1 == ranges[k + 1].0)
    && (forall i: nat :: IsStart(code, i) <==> StartsRange(ranges, i))
  }

  ghost predicate TargetsInRange(code: seq<Opcode>, n: nat)
    requires n <= |code|
  {
    forall j :: 0 <= j < n && FlowTarget(code[j]).Some? ==> FlowTarget(code[j]).value < |code|
  }

  method CollectStarts(code: seq<Opcode>) returns (r: Option<set<nat>>)
    requires |code| > 0
    ensures r.Some? <==> TargetsInRange(code, |code|)
    ensures r.Some? ==> forall i: nat :: i in r.value <==> IsStart(code, i)
  {
    var starts: set<nat> := {0};
    for j := 0 to |code|
      invariant TargetsInRange(code, j)
      invariant forall i: nat :: i in starts <==>
        i == 0 || IsTarget(code, i, j) || (1 <= i <= j && i < |code| && code[i - 1] != Body)
    {
      if code[j] == Body {
        continue;
      }
      if FlowTarget(code[j]).Some? {
        var location := FlowTarget(code[j]).value;
        if location >= |code| {
          return None;
        }
        starts := starts + {location};
      }
      if j + 1 < |code| {
        starts := starts + {j + 1};
      }
    }
    forall i: nat | IsTarget(code, i, |code|)
      ensures i < |code|
    {
    }
    return Some(starts);
  }

  method SplitBlocks(code: seq<Opcode>) returns (r: Recovered<seq<(nat, nat)>>)
    ensures r.Ok? <==> code != [] && TargetsInRange(code, |code|)
    ensures r.Ok? ==> Partition(code, r.value)
  {
    if code == [] {
      return Err(UnsupportedBrillig("Brillig bytecode is empty"));
    }
    var collected := CollectStarts(code);
    if collected.None? {
      return Err(UnsupportedBrillig("Brillig branch targets out-of-range instruction"));
    }
    var sorted := Sorted(code, collected.value);
    var ranges := Cut(code, sorted);
    CutPartition(code, sorted, ranges);
    return Ok(ranges);
  }

  /** The starts in ascending order. */
  ghost predicate SortedStarts(code: seq<Opcode>, sorted: seq<nat>, n: nat) {
    && (forall k :: 0 <= k < |sorted| ==> sorted[k] < n)
    && (forall k :: 0 <= k < |sorted| - 1 ==> sorted[k] < sorted[k + 1])
    && (forall s: nat :: s in sorted <==> s < n && IsStart(code, s))
    && (n > 0 ==> |sorted| > 0 && sorted[0] == 0)
  }

  method Sorted(code: seq<Opcode>, starts: set<nat>) returns (sorted: seq<nat>)
    requires code != [] && forall i: nat :: i in starts <==> IsStart(code, i)
    ensures SortedStarts(code, sorted, |code|)
  {
    sorted := [];
    for i := 0 to |code|
      invariant SortedStarts(code, sorted, i)
    {
      SortedStep(code, sorted, i);
      if i in starts {
        sorted := sorted + [i];
      }
    }
  }

  lemma SortedStep(code: seq<Opcode>, sorted: seq<nat>, i: nat)
    requires SortedStarts(code, sorted, i) && i < |code|
    ensures SortedStarts(code, if IsStart(code, i) then sorted + [i] else sorted, i + 1)
  {
  }

  function RangeAt(code: seq<Opcode>, sorted: seq<nat>, k: nat): (nat, nat)
    requires k < |sorted|
  {
    (sorted[k], if k + 1 < |sorted| then sorted[k + 1] else |code|)
  }

  method Cut(code: seq<Opcode>, sorted: seq<nat>) returns (ranges: seq<(nat, nat)>)
    ensures |ranges| == |sorted| && forall k :: 0 <= k < |sorted| ==> ranges[k] == RangeAt(code, sorted, k)
  {
    ranges := [];
    for k := 0 to |sorted|
      invariant |ranges| == k && forall m :: 0 <= m < k ==> ranges[m] == RangeAt(code, sorted, m)
    {
      ranges := ranges + [(sorted[k], if k + 1 < |sorted| then sorted[k + 1] else |code|)];
    }
  }

  lemma CutPartition(code: seq<Opcode>, sorted: seq<nat>, ranges: seq<(nat, nat)>)
    requires code != [] && SortedStarts(code, sorted, |code|)
    requires |ranges| == |sorted| && forall k :: 0 <= k < |sorted| ==> ranges[k] == RangeAt(code, sorted, k)
    ensures Partition(code, ranges)
  {
    forall i: nat
      ensures IsStart(code, i) <==> StartsRange(ranges, i)
    {
      if IsStart(code, i) {
        assert i in sorted;
        var k :| 0 <= k < |sorted| && sorted[k] == i;
        assert ranges[k].0 == i;
      }
      if StartsRange(ranges, i) {
        var k :| 0 <= k < |ranges| && ranges[k].0 == i;
        assert sorted[k] in sorted;
      }
    }
  }

  ghost predicate IndexOf(ranges: seq<(nat, nat)>, index: map<nat, BlockId>) {
    && (forall k :: 0 <= k < |ranges| ==> ranges[k].0 in index && index[ranges[k].0] == k)
    && (forall i :: i in index ==> index[i] < |ranges| && ranges[index[i]].0 == i)
  }

  method IndexRanges(code: seq<Opcode>, ranges: seq<(nat, nat)>) returns (index: map<nat, BlockId>)
    requires Partition(code, ranges)
    ensures IndexOf(ranges, index)
  {
    index := map[];
    for k := 0 to |ranges|
      invariant forall m :: 0 <= m < k ==> ranges[m].0 in index && index[ranges[m].0] == m
      invariant forall i :: i in index ==> index[i] < k && ranges[index[i]].0 == i
    {
      RangesAscend(code, ranges, k);
      index := index[ranges[k].0 := k];
    }
  }

  lemma {:induction false} RangesAscend(code: seq<Opcode>, ranges: seq<(nat, nat)>, k: nat)
    requires Partition(code, ranges) && k < |ranges|
    ensures forall m :: 0 <= m < k ==> ranges[m].1 <= ranges[k].0
    decreases k
  {
    if k > 0 {
      RangesAscend(code, ranges, k - 1);
      assert ranges[k - 1].1 == ranges[k - 1 + 1].0;
    }
  }

  // ── Classification ───────────────────────────────────────────────────────

  /** The terminator of a block whose last opcode, at `last`, is a flow opcode. */
  function FlowTerminator(code: seq<Opcode>, index: map<nat, BlockId>, last: nat): Option<Terminator>
    requires last < |code|
  {
    match code[last]
    case JumpOp(l) => if l in index then Some(Jump(index[l])) else None
    case JumpIfOp(c, l) =>
      if l in index && last + 1 < |code| && last + 1 in index then Some(JumpIf(c, index[l], index[last + 1])) else None
    case CallOp(l) =>
      if l in index && last + 1 < |code| && last + 1 in index then Some(Call(index[l], index[last + 1])) else None
    case ReturnOp => Some(Return)
    case StopOp => Some(Stop)
    case TrapOp => Some(Trap)
    case Body => if last + 1 < |code| && last + 1 in index then Some(Fallthrough(index[last + 1])) else None
  }

  /** Every block of the partition with the terminator of its last opcode. */
  ghost predicate Classified(code: seq<Opcode>, ranges: seq<(nat, nat)>, index: map<nat, BlockId>, blocks: seq<Block>) {
    && Partition(code, ranges) && IndexOf(ranges, index) && |blocks| == |ranges|
    && forall k :: 0 <= k < |blocks| ==>
         && blocks[k].start == ranges[k].0 && blocks[k].endExclusive == ranges[k].1
         && FlowTerminator(code, index, ranges[k].1 - 1) == Some(blocks[k].terminator)
  }

  lemma RangeBounds(code: seq<Opcode>, ranges: seq<(nat, nat)>)
    requires Partition(code, ranges)
    ensures forall k :: 0 <= k < |ranges| ==> 0 < ranges[k].1 <= |code|
  {
  }

  /** The map finds a block by its start and nothing else. */
  lemma IndexIff(ranges: seq<(nat, nat)>, index: map<nat, BlockId>, i: nat, m: nat)
    requires IndexOf(ranges, index) && m < |ranges|
    ensures i in index && index[i] == m <==> i == ranges[m].0
  {
  }

  method Classify(code: seq<Opcode>, ranges: seq<(nat, nat)>, index: map<nat, BlockId>) returns (r: Recovered<seq<Block>>)
    requires Partition(code, ranges) && IndexOf(ranges, index)
    ensures r.Ok? <==> forall k :: 0 <= k < |ranges| ==> FlowTerminator(code, index, ranges[k].1 - 1).Some?
    ensures r.Ok? ==> Classified(code, ranges, index, r.value)
  {
    RangeBounds(code, ranges);
    hide Partition, IndexOf, FlowTerminator;
    var blocks: seq<Block> := [];
    for k := 0 to |ranges|
      invariant |blocks| == k
      invariant forall m :: 0 <= m < k ==>
        && blocks[m].start == ranges[m].0 && blocks[m].endExclusive == ranges[m].1
        && FlowTerminator(code, index, ranges[m].1 - 1) == Some(blocks[m].terminator)
    {
      var (start, end) := ranges[k];
      var terminator := FlowTerminator(code, index, end - 1);
      if terminator.None? {
        return Err(UnsupportedBrillig("no fall-through target"));
      }
      blocks := blocks + [Block(start, end, terminator.value)];
    }
    return Ok(blocks);
  }

  lemma ClassifiedWellFormed(code: seq<Opcode>, ranges: seq<(nat, nat)>, index: map<nat, BlockId>, blocks: seq<Block>)
    requires Classified(code, ranges, index, blocks)
    ensures WellFormed(blocks) && |blocks| > 0
  {
    forall b, t | 0 <= b < |blocks| && t in Targets(blocks[b].terminator)
      ensures t < |blocks|
    {
      assert FlowTerminator(code, index, ranges[b].1 - 1) == Some(blocks[b].terminator);
    }
  }

  /** Accepted bytecode is exactly the bytecode whose branches stay in range and
      that cannot run past its end. */
  ghost predicate StaysInside(code: seq<Opcode>) {
    code != [] && forall pc: nat, next: nat :: Step(code, pc, next) ==> next < |code|
  }

  lemma AcceptedIff(code: seq<Opcode>, ranges: seq<(nat, nat)>, index: map<nat, BlockId>)
    requires Partition(code, ranges) && IndexOf(ranges, index) && code != [] && TargetsInRange(code, |code|)
    ensures (forall k :: 0 <= k < |ranges| ==> FlowTerminator(code, index, ranges[k].1 - 1).Some?) <==> StaysInside(code)
  {
    RangeBounds(code, ranges);
    assert |ranges| > 0 && ranges[|ranges| - 1].1 == |code|;
    if StaysInside(code) {
      forall k | 0 <= k < |ranges|
        ensures FlowTerminator(code, index, ranges[k].1 - 1).Some?
      {
        InsideHasTerminator(code, ranges, index, k);
      }
    }
    hide Partition, IndexOf;
    if forall k :: 0 <= k < |ranges| ==> FlowTerminator(code, index, ranges[k].1 - 1).Some? {
      assert FlowTerminator(code, index, ranges[|ranges| - 1].1 - 1).Some?;
      TerminatedStaysInside(code, index);
    }
  }

  lemma InsideHasTerminator(code: seq<Opcode>, ranges: seq<(nat, nat)>, index: map<nat, BlockId>, k: nat)
    requires Partition(code, ranges) && IndexOf(ranges, index) && k < |ranges| && 0 < ranges[k].1 <= |code|
    requires TargetsInRange(code, |code|) && StaysInside(code)
    ensures FlowTerminator(code, index, ranges[k].1 - 1).Some?
  {
    var last := ranges[k].1 - 1;
    LastOpcode(code, ranges, index, k);
    hide Partition, IndexOf, TargetsInRange;
    if code[last] == Body || code[last].CallOp? || code[last].JumpIfOp? {
      assert Step(code, last, last + 1);
    }
  }

  /** Only the last opcode can run past the end. */
  lemma TerminatedStaysInside(code: seq<Opcode>, index: map<nat, BlockId>)
    requires code != [] && TargetsInRange(code, |code|) && FlowTerminator(code, index, |code| - 1).Some?
    ensures StaysInside(code)
  {
    forall pc: nat, next: nat | Step(code, pc, next)
      ensures next < |code|
    {
      assert FlowTarget(code[pc]) == Some(next) || next == pc + 1;
    }
  }

  lemma LastOpcode(code: seq<Opcode>, ranges: seq<(nat, nat)>, index: map<nat, BlockId>, k: nat)
    requires Partition(code, ranges) && IndexOf(ranges, index) && k < |ranges| && TargetsInRange(code, |code|)
    ensures var last := ranges[k].1 - 1;
            && (last + 1 < |code| ==> last + 1 in index)
            && (FlowTarget(code[last]).Some? ==> FlowTarget(code[last]).value in index)
  {
    var last := ranges[k].1 - 1;
    if FlowTarget(code[last]).Some? {
      var l := FlowTarget(code[last]).value;
      assert IsTarget(code, l, |code|);
      assert IsStart(code, l) && StartsRange(ranges, l);
    }
    if last + 1 < |code| {
      assert ranges[k].1 == ranges[k + 1].0;
    }
  }

  /** Every program counter lies in one block. */
  lemma {:induction false} BlockOf(code: seq<Opcode>, ranges: seq<(nat, nat)>, pc: nat) returns (k: nat)
    requires Partition(code, ranges) && pc < |code|
    ensures k < |ranges| && ranges[k].0 <= pc < ranges[k].1
  {
    k := 0;
    while pc >= ranges[k].1
      invariant k < |ranges| && ranges[k].0 <= pc
      decreases |ranges| - k
    {
      assert ranges[k].1 == ranges[k + 1].0;
      k := k + 1;
    }
  }

  /** Inside a block control moves to the next opcode, and only its last opcode
      is a flow opcode. */
  lemma InsideBlock(code: seq<Opcode>, ranges: seq<(nat, nat)>, k: nat, pc: nat)
    requires Partition(code, ranges) && k < |ranges| && ranges[k].0 <= pc < ranges[k].1 - 1
    ensures code[pc] == Body && forall next: nat :: Step(code, pc, next) <==> next == pc + 1
  {
    if code[pc] != Body {
      assert IsStart(code, pc + 1) && StartsRange(ranges, pc + 1);
      var m :| 0 <= m < |ranges| && ranges[m].0 == pc + 1;
      if m < k {
        RangesAscend(code, ranges, k);
      } else if m > k {
        RangesAscend(code, ranges, m);
      }
    }
  }

  /** The edges of the block graph are the steps of the program counter that
      leave a block. */
  lemma EdgesAreSteps(code: seq<Opcode>, ranges: seq<(nat, nat)>, index: map<nat, BlockId>, blocks: seq<Block>, k: nat, m: nat)
    requires Classified(code, ranges, index, blocks) && k < |blocks| && m < |blocks|
    ensures Edge(ComputeSuccessors(blocks), k, m) <==> Step(code, blocks[k].endExclusive - 1, blocks[m].start)
  {
    hide FlowTerminator;
    var last := ranges[k].1 - 1;
    assert FlowTerminator(code, index, last) == Some(blocks[k].terminator);
    assert ComputeSuccessors(blocks)[k] == Targets(blocks[k].terminator);
    assert blocks[k].endExclusive - 1 == last && blocks[m].start == ranges[m].0;
    IndexIff(ranges, index, last + 1, m);
    if FlowTarget(code[last]).Some? {
      IndexIff(ranges, index, FlowTarget(code[last]).value, m);
    }
    TerminatorSteps(code, index, last, blocks[k].terminator, ranges[m].0, m);
  }

  lemma TerminatorSteps(code: seq<Opcode>, index: map<nat, BlockId>, last: nat, t: Terminator, start: nat, m: nat)
    requires last < |code| && FlowTerminator(code, index, last) == Some(t)
    requires last + 1 in index && index[last + 1] == m <==> last + 1 == start
    requires FlowTarget(code[last]).Some? ==>
               var l := FlowTarget(code[last]).value; l in index && index[l] == m <==> l == start
    ensures m in Targets(t) <==> Step(code, last, start)
  {
  }

  /** The block graph simulates the program counter: from inside a block the
      next opcode follows, from its last opcode control enters the first opcode
      of a successor block, and every edge is taken by some step. */
  lemma StepSimulated(code: seq<Opcode>, ranges: seq<(nat, nat)>, index: map<nat, BlockId>, blocks: seq<Block>, pc: nat, next: nat)
    returns (k: nat, m: nat)
    requires Classified(code, ranges, index, blocks) && Step(code, pc, next)
    ensures k < |blocks| && blocks[k].start <= pc < blocks[k].endExclusive
    ensures m < |blocks| && blocks[m].start <= next < blocks[m].endExclusive
    ensures pc + 1 < blocks[k].endExclusive ==> next == pc + 1 && m == k
    ensures pc + 1 == blocks[k].endExclusive ==> next == blocks[m].start && Edge(ComputeSuccessors(blocks), k, m)
  {
    k := BlockOf(code, ranges, pc);
    if pc + 1 < ranges[k].1 {
      InsideBlock(code, ranges, k, pc);
      m := k;
    } else {
      m := EntersBlock(code, ranges, index, blocks, k, next);
      EdgesAreSteps(code, ranges, index, blocks, k, m);
    }
  }

  lemma EntersBlock(code: seq<Opcode>, ranges: seq<(nat, nat)>, index: map<nat, BlockId>, blocks: seq<Block>, k: nat, next: nat)
    returns (m: nat)
    requires Classified(code, ranges, index, blocks) && k < |blocks| && Step(code, ranges[k].1 - 1, next)
    ensures m < |blocks| && next == blocks[m].start < blocks[m].endExclusive
  {
    assert FlowTerminator(code, index, ranges[k].1 - 1) == Some(blocks[k].terminator);
    assert next in index;
    m := index[next];
    assert ranges[m].0 == next;
  }
}
