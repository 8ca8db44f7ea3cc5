/** Classification of loop headers (`loop_shape.rs`). */
module LoopShapes {
  import opened Graphs
  import opened CfgTypes
  import opened DomTrees
  import opened Views
  import opened CfgBuild
  import opened StructureTree

  /** `exitEdges` leave the body for a block that can go on. */
  datatype LoopShape = LoopShape(
    effectiveHeader: BlockId,
    bodyEntry: BlockId,
    exitDest: BlockId,
    exitPrefix: seq<BlockId>,
    condition: Option<LoopCondition>,
    exitEdges: seq<(BlockId, BlockId)>)

  /** A step of the structurer ends with a value, an error of the program, a
      panic, or without an answer when its fuel is used up. */
  datatype Outcome<+T> = Done(value: T) | Rejected(error: Error) | Panicked | OutOfFuel

  /** What the classification reads: sizes agree and every table entry is a
      block. */
  ghost predicate Indexed(c: Cfg) {
    && |c.blocks| == |c.successors| == |c.callerSucc| == |c.callerPred| == |c.predecessors|
    && |c.postDominators.idom| == |c.blocks|
    && WellFormed(c.blocks) && c.successors == ComputeSuccessors(c.blocks)
    && InRange(c.callerSucc)
    && (forall b: nat :: b < |c.blocks| && c.postDominators.idom[b].Some? ==> c.postDominators.idom[b].value < |c.blocks|)
    && (forall i :: 0 <= i < |c.loops| ==> c.loops[i].header < |c.blocks| && forall b :: b in c.loops[i].body ==> b < |c.blocks|)
  }

  /** A block with one predecessor, in the caller's view, and one successor. */
  predicate IsTrampoline(c: Cfg, b: BlockId)
    requires b < |c.callerPred| && b < |c.successors| && b < |c.blocks|
  {
    && |c.callerPred[b]| == 1 && |c.successors[b]| == 1
    && (c.blocks[b].terminator.Jump? || c.blocks[b].terminator.Fallthrough?)
  }

  /** Control comes to the block from one place only and can go on to one place
      only. */
  ghost predicate PassesOn(c: Cfg, b: BlockId) {
    && (exists u: nat :: EnteredFrom(c, b, u))
    && b < |c.blocks| && (c.blocks[b].terminator.Jump? || c.blocks[b].terminator.Fallthrough?)
  }

  ghost predicate EnteredFrom(c: Cfg, b: BlockId, u: BlockId) {
    b < |c.callerPred| && c.callerPred[b] == [u]
  }

  lemma TrampolineIff(c: Cfg, b: BlockId)
    requires Indexed(c) && b < |c.blocks|
    ensures IsTrampoline(c, b) <==> PassesOn(c, b)
  {
    assert c.successors[b] == Targets(c.blocks[b].terminator);
    if |c.callerPred[b]| == 1 {
      assert EnteredFrom(c, b, c.callerPred[b][0]);
    }
  }

  /** `chain` runs through trampolines from `start` to `end`. */
  ghost predicate TrampolineChain(c: Cfg, start: BlockId, chain: seq<BlockId>, end: BlockId)
    requires Indexed(c)
    decreases |chain|
  {
    if chain == [] then start == end
    else
      && chain[0] == start && start < |c.blocks| && IsTrampoline(c, start)
      && TrampolineChain(c, c.successors[start][0], chain[1..], end)
  }

  lemma {:induction false} ChainSnoc(c: Cfg, start: BlockId, chain: seq<BlockId>, mid: BlockId)
    requires Indexed(c) && TrampolineChain(c, start, chain, mid)
    requires mid < |c.blocks| && IsTrampoline(c, mid)
    ensures TrampolineChain(c, start, chain + [mid], c.successors[mid][0])
    decreases |chain|
  {
    if chain == [] {
      assert [mid][1..] == [];
      assert TrampolineChain(c, c.successors[mid][0], [], c.successors[mid][0]);
    } else {
      assert (chain + [mid])[1..] == chain[1..] + [mid];
      ChainSnoc(c, c.successors[start][0], chain[1..], mid);
    }
  }

  lemma SuccessorInRange(c: Cfg, b: BlockId)
    requires Indexed(c) && b < |c.blocks|
    ensures forall t :: t in c.successors[b] ==> t < |c.blocks|
  {
    assert c.successors[b] == Targets(c.blocks[b].terminator);
  }

  /** The first block behind `fuel` trampolines at most. */
  ghost function CanonicalEnd(c: Cfg, b: BlockId, fuel: nat): (r: Option<BlockId>)
    requires Indexed(c) && b < |c.blocks|
    ensures r.Some? ==> r.value < |c.blocks| && !IsTrampoline(c, r.value)
    decreases fuel
  {
    if !IsTrampoline(c, b) then Some(b)
    else if fuel == 0 then None
    else
      SuccessorInRange(c, b);
      assert c.successors[b][0] in c.successors[b];
      CanonicalEnd(c, c.successors[b][0], fuel - 1)
  }

  /** Follows trampolines; gives up when `fuel` runs out. */
  method WalkToCanonical(c: Cfg, start: BlockId, fuel: nat) returns (r: Outcome<(seq<BlockId>, BlockId)>)
    requires Indexed(c) && start < |c.blocks|
    ensures r.Done? ==> TrampolineChain(c, start, r.value.0, r.value.1) && r.value.1 < |c.blocks| && !PassesOn(c, r.value.1)
    ensures r.Done? || r.OutOfFuel?
    ensures CanonicalEnd(c, start, fuel) == if r.Done? then Some(r.value.1) else None
  {
    var chain: seq<BlockId>, cur: nat, left := [], start, fuel;
    while IsTrampoline(c, cur)
      invariant cur < |c.blocks| && TrampolineChain(c, start, chain, cur)
      invariant CanonicalEnd(c, start, fuel) == CanonicalEnd(c, cur, left)
      decreases left
    {
      if left == 0 {
        return OutOfFuel;
      }
      ChainSnoc(c, start, chain, cur);
      SuccessorInRange(c, cur);
      assert c.successors[cur][0] in c.successors[cur];
      chain := chain + [cur];
      cur := c.successors[cur][0];
      left := left - 1;
    }
    TrampolineIff(c, cur);
    return Done((chain, cur));
  }

  /** Where the walk from a block that is no trampoline ends: it goes on from the
      post-dominator of a conditional jump, `left` times at most. */
  ghost function ConvergenceFrom(c: Cfg, b: BlockId, left: nat, fuel: nat): Option<BlockId>
    requires Indexed(c) && b < |c.blocks|
    decreases left
  {
    if !(c.blocks[b].terminator.JumpIf? && c.postDominators.idom[b].Some?) then Some(b)
    else if left == 0 then None
    else
      var next := CanonicalEnd(c, c.postDominators.idom[b].value, fuel);
      if next.None? then None else ConvergenceFrom(c, next.value, left - 1, fuel)
  }

  ghost function Convergence(c: Cfg, b: BlockId, fuel: nat): Option<BlockId>
    requires Indexed(c) && b < |c.blocks|
  {
    var first := CanonicalEnd(c, b, fuel);
    if first.None? then None else ConvergenceFrom(c, first.value, fuel, fuel)
  }

  /** Follows trampolines, and post-dominators at conditional jumps. */
  method WalkToConvergence(c: Cfg, start: BlockId, fuel: nat) returns (r: Outcome<BlockId>)
    requires Indexed(c) && start < |c.blocks|
    ensures r.Done? ==> r.value < |c.blocks| && !PassesOn(c, r.value)
    ensures r.Done? ==> !(c.blocks[r.value].terminator.JumpIf? && c.postDominators.idom[r.value].Some?)
    ensures r.Done? || r.OutOfFuel?
    ensures Convergence(c, start, fuel) == if r.Done? then Some(r.value) else None
  {
    var first := WalkToCanonical(c, start, fuel);
    if !first.Done? {
      return OutOfFuel;
    }
    var cur: nat, left := first.value.1, fuel;
    while c.blocks[cur].terminator.JumpIf? && c.postDominators.idom[cur].Some?
      invariant cur < |c.blocks| && !IsTrampoline(c, cur)
      invariant Convergence(c, start, fuel) == ConvergenceFrom(c, cur, left, fuel)
      decreases left
    {
      if left == 0 {
        return OutOfFuel;
      }
      var next := WalkToCanonical(c, c.postDominators.idom[cur].value, fuel);
      if !next.Done? {
        return OutOfFuel;
      }
      cur := next.value.1;
      left := left - 1;
    }
    return Done(cur);
  }

  /** An edge from the body to a block outside it that does not always trap. */
  predicate IsExitEdge(c: Cfg, l: NaturalLoop, src: BlockId, dst: BlockId) {
    && src in l.body && src < |c.callerSucc| && dst in c.callerSucc[src]
    && dst !in l.body && dst !in c.divergentBlocks
  }

  method CollectExitEdges(c: Cfg, l: NaturalLoop) returns (edges: seq<(BlockId, BlockId)>)
    requires Indexed(c)
    ensures forall src: nat, dst: nat :: (src, dst) in edges <==> IsExitEdge(c, l, src, dst)
  {
    edges := [];
    for block := 0 to |c.callerSucc|
      invariant forall src: nat, dst: nat :: (src, dst) in edges <==> src < block && IsExitEdge(c, l, src, dst)
    {
      if block in l.body {
        for i := 0 to |c.callerSucc[block]|
          invariant forall src: nat, dst: nat :: (src, dst) in edges <==>
            IsExitEdge(c, l, src, dst) && (src < block || (src == block && dst in c.callerSucc[block][..i]))
        {
          var dst := c.callerSucc[block][i];
          assert c.callerSucc[block][..i + 1] == c.callerSucc[block][..i] + [dst];
          if dst !in l.body && dst !in c.divergentBlocks {
            edges := edges + [(block, dst)];
          }
        }
        assert c.callerSucc[block][..|c.callerSucc[block]|] == c.callerSucc[block];
      }
    }
  }

  /** A test both of whose arms stay in the loop without joining in it. */
  predicate LacksJoin(c: Cfg, l: NaturalLoop, b: BlockId)
    requires Indexed(c) && b < |c.blocks| && c.blocks[b].terminator.JumpIf?
  {
    var t := c.blocks[b].terminator;
    && t.thenBlock in l.body && t.elseBlock in l.body
    && (c.postDominators.idom[b].None? || c.postDominators.idom[b].value !in l.body)
  }

  /** Where a test that does not decide the exit is passed to: the join of two
      arms in the loop, or the arm beside one that always traps. */
  ghost function SkipTarget(c: Cfg, l: NaturalLoop, b: BlockId): Option<BlockId>
    requires Indexed(c) && b < |c.blocks| && c.blocks[b].terminator.JumpIf?
  {
    var t := c.blocks[b].terminator;
    if t.thenBlock in l.body && t.elseBlock in l.body then c.postDominators.idom[b]
    else if t.thenBlock in l.body && t.elseBlock in c.divergentBlocks then Some(t.thenBlock)
    else if t.elseBlock in l.body && t.thenBlock in c.divergentBlocks then Some(t.elseBlock)
    else None
  }

  /** `b` is reached from `h` by passing `n` tests. */
  ghost predicate SkipsTo(c: Cfg, l: NaturalLoop, h: BlockId, b: BlockId, n: nat)
    requires Indexed(c)
    decreases n
  {
    if n == 0 then b == h
    else exists a: nat :: a < |c.blocks| && c.blocks[a].terminator.JumpIf? && SkipTarget(c, l, a) == Some(b) && SkipsTo(c, l, h, a, n - 1)
  }

  /** No further test is passed at `b`. */
  ghost predicate Decides(c: Cfg, l: NaturalLoop, b: BlockId)
    requires Indexed(c) && b < |c.blocks|
  {
    c.blocks[b].terminator.JumpIf? ==> SkipTarget(c, l, b).None? || SkipTarget(c, l, b).value == b
  }

  /** The arm a header test that does not decide the exit is passed by. */
  method SkippedArm(c: Cfg, l: NaturalLoop, cur: BlockId, t: Terminator) returns (r: Outcome<Option<BlockId>>)
    requires Indexed(c) && cur < |c.blocks| && t == c.blocks[cur].terminator && t.JumpIf?
    ensures r.Done? || r.Rejected?
    ensures r.Rejected? <==> LacksJoin(c, l, cur)
    ensures r.Done? ==> r.value == SkipTarget(c, l, cur) && (r.value.Some? ==> r.value.value < |c.blocks|)
  {
    assert t.thenBlock in Targets(t) && t.elseBlock in Targets(t);
    var thenIn := t.thenBlock in l.body;
    var elseIn := t.elseBlock in l.body;
    if thenIn && elseIn {
      var pd := c.postDominators.idom[cur];
      if pd.None? {
        return Rejected(UnsupportedBrillig("both arms in the loop that do not join"));
      }
      if pd.value !in l.body {
        return Rejected(UnsupportedBrillig("both arms in the loop but their join is not in loop"));
      }
      return Done(Some(pd.value));
    } else if thenIn && t.elseBlock in c.divergentBlocks {
      return Done(Some(t.thenBlock));
    } else if elseIn && t.thenBlock in c.divergentBlocks {
      return Done(Some(t.elseBlock));
    }
    return Done(None);
  }

  /** The header decides the exit itself: one arm stays, the other leaves and
      can go on. */
  predicate DecidesExit(c: Cfg, l: NaturalLoop) {
    && l.header < |c.blocks| && c.blocks[l.header].terminator.JumpIf?
    && var t := c.blocks[l.header].terminator;
       (t.thenBlock in l.body && t.elseBlock !in l.body && t.elseBlock !in c.divergentBlocks)
       || (t.thenBlock !in l.body && t.elseBlock in l.body && t.thenBlock !in c.divergentBlocks)
  }

  /** A header with one arm in the body decides the exit unless it is passed. */
  lemma DecidesIffNotPassed(c: Cfg, l: NaturalLoop)
    requires Indexed(c) && l.header < |c.blocks| && c.blocks[l.header].terminator.JumpIf?
    requires (c.blocks[l.header].terminator.thenBlock in l.body) != (c.blocks[l.header].terminator.elseBlock in l.body)
    ensures DecidesExit(c, l) <==> SkipTarget(c, l, l.header).None?
  {
  }

  /** The arm by which a deciding header leaves. */
  function ExitArm(c: Cfg, l: NaturalLoop): BlockId
    requires DecidesExit(c, l)
  {
    var t := c.blocks[l.header].terminator;
    if t.thenBlock in l.body then t.elseBlock else t.thenBlock
  }

  /** The header decides the exit, no other arm leaves the body, and the walks
      from the exit arm end. */
  ghost predicate LeavesOnce(c: Cfg, l: NaturalLoop, fuel: nat)
    requires Indexed(c)
  {
    && DecidesExit(c, l) && fuel > 0
    && (forall src: nat, dst: nat :: IsExitEdge(c, l, src, dst) ==> dst == ExitArm(c, l))
    && ExitArm(c, l) < |c.blocks| && Convergence(c, ExitArm(c, l), fuel).Some?
  }

  method FindEffectiveHeader(c: Cfg, l: NaturalLoop, fuel: nat) returns (r: Outcome<BlockId>)
    requires Indexed(c) && l.header < |c.blocks|
    ensures !r.Panicked?
    ensures r.Done? ==> r.value < |c.blocks| && Decides(c, l, r.value) && exists n :: SkipsTo(c, l, l.header, r.value, n)
    ensures DecidesExit(c, l) && fuel > 0 ==> r == Done(l.header)
  {
    var cur: nat, left := l.header, fuel;
    assert SkipsTo(c, l, l.header, cur, 0);
    while c.blocks[cur].terminator.JumpIf?
      invariant cur < |c.blocks| && 0 <= left <= fuel && SkipsTo(c, l, l.header, cur, fuel - left)
      invariant DecidesExit(c, l) && fuel > 0 ==> cur == l.header && left == fuel
      decreases left
    {
      if left == 0 {
        return OutOfFuel;
      }
      var arm := SkippedArm(c, l, cur, c.blocks[cur].terminator);
      if arm.Rejected? {
        return Rejected(arm.error);
      }
      if arm.value.None? || arm.value.value == cur {
        break;
      }
      cur := arm.value.value;
      left := left - 1;
    }
    return Done(cur);
  }

  /** A shape with a condition follows the two arms of the effective header. */
  ghost predicate FollowsHeader(c: Cfg, l: NaturalLoop, s: LoopShape)
    requires Indexed(c)
  {
    && s.effectiveHeader < |c.blocks|
    && c.blocks[s.effectiveHeader].terminator.JumpIf?
    && s.condition.Some?
    && var t := c.blocks[s.effectiveHeader].terminator;
       var onTrue := s.condition.value.polarity.ContinueOnTrue?;
       && s.condition.value.register == t.condition
       && s.bodyEntry == (if onTrue then t.thenBlock else t.elseBlock) && s.bodyEntry in l.body
       && (if onTrue then t.elseBlock else t.thenBlock) !in l.body
       && TrampolineChain(c, if onTrue then t.elseBlock else t.thenBlock, s.exitPrefix, s.exitDest)
  }

  ghost predicate ValidShape(c: Cfg, l: NaturalLoop, s: LoopShape)
    requires Indexed(c)
  {
    && s.effectiveHeader < |c.blocks| && s.bodyEntry < |c.blocks| && s.exitDest < |c.blocks| && s.bodyEntry in l.body
    && (forall src: nat, dst: nat :: (src, dst) in s.exitEdges <==> IsExitEdge(c, l, src, dst))
    && (if c.blocks[s.effectiveHeader].terminator.JumpIf? then FollowsHeader(c, l, s)
        else
          && s.condition.None? && s.exitPrefix == [] && s.exitEdges != []
          && var t := c.blocks[s.effectiveHeader].terminator; t == Jump(s.bodyEntry) || t == Fallthrough(s.bodyEntry))
  }

  /** The arm by which a loop with a condition leaves can go on, unless its header
      is its whole body. */
  ghost predicate LeavesAlive(c: Cfg, s: LoopShape)
    requires Indexed(c)
  {
    s.condition.Some? && s.effectiveHeader < |c.blocks| && s.bodyEntry != s.effectiveHeader && c.blocks[s.effectiveHeader].terminator.JumpIf? ==>
      var t := c.blocks[s.effectiveHeader].terminator;
      (if s.condition.value.polarity.ContinueOnTrue? then t.elseBlock else t.thenBlock) !in c.divergentBlocks
  }

  lemma DecidedLeavesAlive(c: Cfg, l: NaturalLoop, s: LoopShape)
    requires Indexed(c) && ValidShape(c, l, s) && Decides(c, l, s.effectiveHeader)
    ensures LeavesAlive(c, s)
  {
  }

  method JumpIfShape(c: Cfg, l: NaturalLoop, effectiveHeader: BlockId, polarity: CondPolarity, exitEdges: seq<(BlockId, BlockId)>, fuel: nat)
    returns (r: Outcome<LoopShape>)
    requires Indexed(c) && effectiveHeader < |c.blocks| && c.blocks[effectiveHeader].terminator.JumpIf?
    requires var t := c.blocks[effectiveHeader].terminator;
             if polarity.ContinueOnTrue? then t.thenBlock in l.body && t.elseBlock !in l.body
             else t.thenBlock !in l.body && t.elseBlock in l.body
    requires forall src: nat, dst: nat :: (src, dst) in exitEdges <==> IsExitEdge(c, l, src, dst)
    ensures !r.Panicked?
    ensures r.Done? ==> ValidShape(c, l, r.value) && r.value.effectiveHeader == effectiveHeader && r.value.exitEdges == exitEdges
    ensures effectiveHeader == l.header && LeavesOnce(c, l, fuel) ==>
              r.Done? && CanonicalEnd(c, ExitArm(c, l), fuel) == Some(r.value.exitDest)
  {
    var t := c.blocks[effectiveHeader].terminator;
    assert t.thenBlock in Targets(t) && t.elseBlock in Targets(t);
    var (bodyEntry, exitArm) := if polarity.ContinueOnTrue? then (t.thenBlock, t.elseBlock) else (t.elseBlock, t.thenBlock);
    var canonical := WalkToCanonical(c, exitArm, fuel);
    if !canonical.Done? {
      return OutOfFuel;
    }
    return Done(LoopShape(effectiveHeader, bodyEntry, canonical.value.1, canonical.value.0,
                          Some(LoopCondition(t.condition, polarity)), exitEdges));
  }

  /** The shape before the convergence check. */
  method SeedShape(c: Cfg, l: NaturalLoop, effectiveHeader: BlockId, exitEdges: seq<(BlockId, BlockId)>, fuel: nat)
    returns (r: Outcome<LoopShape>)
    requires Indexed(c) && effectiveHeader < |c.blocks|
    requires forall src: nat, dst: nat :: (src, dst) in exitEdges <==> IsExitEdge(c, l, src, dst)
    requires forall e :: e in exitEdges ==> e.1 < |c.blocks|
    ensures !r.Panicked?
    ensures r.Done? ==> ValidShape(c, l, r.value) && r.value.effectiveHeader == effectiveHeader && r.value.exitEdges == exitEdges
    ensures effectiveHeader == l.header && LeavesOnce(c, l, fuel) ==>
              r.Done? && CanonicalEnd(c, ExitArm(c, l), fuel) == Some(r.value.exitDest)
  {
    hide ValidShape, IsExitEdge, CanonicalEnd, Convergence;
    var t := c.blocks[effectiveHeader].terminator;
    match t {
      case JumpIf(condition, thenBlock, elseBlock) =>
        if thenBlock in l.body && elseBlock !in l.body {
          r := JumpIfShape(c, l, effectiveHeader, ContinueOnTrue, exitEdges, fuel);
        } else if thenBlock !in l.body && elseBlock in l.body {
          r := JumpIfShape(c, l, effectiveHeader, ExitOnTrue, exitEdges, fuel);
        } else {
          r := Rejected(UnsupportedBrillig("JumpIf must have exactly one target inside the loop body"));
        }
      case Jump(target) =>
        r := JumpShape(c, l, effectiveHeader, target, exitEdges, fuel);
      case Fallthrough(target) =>
        r := JumpShape(c, l, effectiveHeader, target, exitEdges, fuel);
      case _ =>
        r := Rejected(UnsupportedBrillig("only JumpIf, Jump and Fallthrough headers are supported"));
    }
  }

  method JumpShape(c: Cfg, l: NaturalLoop, effectiveHeader: BlockId, target: BlockId, exitEdges: seq<(BlockId, BlockId)>, fuel: nat)
    returns (r: Outcome<LoopShape>)
    requires Indexed(c) && effectiveHeader < |c.blocks|
    requires var t := c.blocks[effectiveHeader].terminator; t == Jump(target) || t == Fallthrough(target)
    requires forall src: nat, dst: nat :: (src, dst) in exitEdges <==> IsExitEdge(c, l, src, dst)
    requires forall e :: e in exitEdges ==> e.1 < |c.blocks|
    ensures !r.Panicked?
    ensures r.Done? ==> ValidShape(c, l, r.value) && r.value.effectiveHeader == effectiveHeader && r.value.exitEdges == exitEdges
  {
    assert target in Targets(c.blocks[effectiveHeader].terminator);
    if target !in l.body {
      return Rejected(UnsupportedBrillig("degenerate loop with no body"));
    }
    if exitEdges == [] {
      return Rejected(UnsupportedBrillig("infinite loop with no break"));
    }
    assert exitEdges[0] in exitEdges;
    var canonical := WalkToCanonical(c, exitEdges[0].1, fuel);
    if !canonical.Done? {
      return OutOfFuel;
    }
    return Done(LoopShape(effectiveHeader, target, canonical.value.1, [], None, exitEdges));
  }

  /** All exit edges lead on to one block, the one the exit destination leads to. */
  ghost predicate Converges(c: Cfg, s: LoopShape, fuel: nat)
    requires Indexed(c)
  {
    && s.exitDest < |c.blocks| && Convergence(c, s.exitDest, fuel).Some?
    && forall e :: e in s.exitEdges ==> e.1 < |c.blocks| && Convergence(c, e.1, fuel) == Convergence(c, s.exitDest, fuel)
  }

  /** A block and the end of its trampolines converge alike. */
  lemma CanonicalConverges(c: Cfg, b: BlockId, end: BlockId, fuel: nat)
    requires Indexed(c) && b < |c.blocks| && CanonicalEnd(c, b, fuel) == Some(end)
    ensures Convergence(c, end, fuel) == Convergence(c, b, fuel)
  {
  }

  method GetLoopShape(c: Cfg, l: NaturalLoop, fuel: nat) returns (r: Outcome<LoopShape>)
    requires Indexed(c) && l.header < |c.blocks|
    ensures !r.Panicked?
    ensures r.Done? ==> ValidShape(c, l, r.value)
    ensures r.Done? && DecidesExit(c, l) && fuel > 0 ==> r.value.effectiveHeader == l.header
    ensures r.Done? ==> Converges(c, r.value, fuel)
    ensures r.Done? ==> Decides(c, l, r.value.effectiveHeader) && exists n :: SkipsTo(c, l, l.header, r.value.effectiveHeader, n)
    ensures r.Done? ==> LeavesAlive(c, r.value)
    ensures LeavesOnce(c, l, fuel) ==> r.Done?
  {
    hide ValidShape, Decides, SkipsTo, CanonicalEnd, Convergence, ExitArm, IsExitEdge, LeavesAlive;
    var exitEdges := CollectExitEdges(c, l);
    var effective := FindEffectiveHeader(c, l, fuel);
    if !effective.Done? {
      return if effective.Rejected? then Rejected(effective.error) else OutOfFuel;
    }
    ExitEdgesInRange(c, l, exitEdges);
    var seeded := SeedShape(c, l, effective.value, exitEdges, fuel);
    if !seeded.Done? {
      return seeded;
    }
    ShapeInRange(c, l, seeded.value);
    DecidedLeavesAlive(c, l, seeded.value);
    if LeavesOnce(c, l, fuel) {
      CanonicalConverges(c, ExitArm(c, l), seeded.value.exitDest, fuel);
    }
    var target := WalkToConvergence(c, seeded.value.exitDest, fuel);
    if !target.Done? {
      return OutOfFuel;
    }
    for i := 0 to |exitEdges|
      invariant forall j :: 0 <= j < i ==> exitEdges[j].1 < |c.blocks| && Convergence(c, exitEdges[j].1, fuel) == Some(target.value)
    {
      assert exitEdges[i] in exitEdges;
      assert IsExitEdge(c, l, exitEdges[i].0, exitEdges[i].1);
      var canonical := WalkToConvergence(c, exitEdges[i].1, fuel);
      if !canonical.Done? {
        return OutOfFuel;
      }
      if canonical.value != target.value {
        return Rejected(UnsupportedBrillig("exit edge converges elsewhere"));
      }
    }
    return seeded;
  }

  lemma ShapeInRange(c: Cfg, l: NaturalLoop, s: LoopShape)
    requires Indexed(c) && ValidShape(c, l, s)
    ensures s.exitDest < |c.blocks|
  {
  }

  lemma ExitEdgesInRange(c: Cfg, l: NaturalLoop, exitEdges: seq<(BlockId, BlockId)>)
    requires Indexed(c)
    requires forall src: nat, dst: nat :: (src, dst) in exitEdges <==> IsExitEdge(c, l, src, dst)
    ensures forall e :: e in exitEdges ==> e.1 < |c.blocks|
  {
    forall e | e in exitEdges
      ensures e.1 < |c.blocks|
    {
      assert IsExitEdge(c, l, e.0, e.1);
    }
  }
}
