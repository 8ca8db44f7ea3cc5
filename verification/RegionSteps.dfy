/** Each turn of the region walk extends a simulated stretch of the tree. */
module RegionSteps {
  import opened Graphs
  import opened CfgTypes
  import opened DomTrees
  import opened Rooted
  import opened Loops
  import opened Views
  import opened CfgBuild
  import opened StructureTree
  import opened Simulation
  import opened LoopShapes
  import opened RegionFacts
  import opened RegionWalk

  /** The tree built so far runs the graph from `entry` to `current`. */
  ghost predicate Walked(c: Cfg, entry: BlockId, current: BlockId, end: Option<BlockId>, ctx: Option<LoopCtx>, stop: Option<BlockId>,
                         nodes: seq<StructureNode>) {
    && RegionOk(c, current, end, ctx, stop)
    && (IsLive(c, entry) <==> IsLive(c, current))
    && Simulates(ProgramOf(c), nodes, entry, At(current))
  }

  /** The whole region has been walked. */
  ghost predicate Complete(c: Cfg, entry: BlockId, end: Option<BlockId>, ctx: Option<LoopCtx>, nodes: seq<StructureNode>) {
    Simulates(ProgramOf(c), nodes, entry, ExitOf(c, entry, end, ctx))
  }

  lemma WalkBegins(c: Cfg, entry: BlockId, end: Option<BlockId>, ctx: Option<LoopCtx>, stop: Option<BlockId>)
    requires RegionOk(c, entry, end, ctx, stop)
    ensures Walked(c, entry, entry, end, ctx, stop, [])
  {
    SimulatesNothing(ProgramOf(c), entry);
  }

  lemma WalkStops(c: Cfg, entry: BlockId, current: BlockId, end: Option<BlockId>, ctx: Option<LoopCtx>, stop: Option<BlockId>,
                  nodes: seq<StructureNode>)
    requires Structurable(c) && Walked(c, entry, current, end, ctx, stop, nodes)
    requires end == Some(current) || stop == Some(current)
    ensures Complete(c, entry, end, ctx, nodes)
  {
    StopIsEnd(c, current, end, ctx, stop);
  }

  /** More nodes that run from `current` to `next`. */
  lemma WalkOn(c: Cfg, entry: BlockId, current: BlockId, next: BlockId, end: Option<BlockId>, ctx: Option<LoopCtx>, stop: Option<BlockId>,
               nodes: seq<StructureNode>, more: seq<StructureNode>)
    requires Walked(c, entry, current, end, ctx, stop, nodes)
    requires RegionOk(c, next, end, ctx, stop) && (IsLive(c, current) <==> IsLive(c, next))
    requires Simulates(ProgramOf(c), more, current, At(next))
    ensures Walked(c, entry, next, end, ctx, stop, nodes + more)
  {
    SimulatesThen(ProgramOf(c), nodes, more, entry, current, At(next));
  }

  /** Closing nodes that always fail, or that end where the region ends. */
  lemma WalkEnds(c: Cfg, entry: BlockId, current: BlockId, end: Option<BlockId>, ctx: Option<LoopCtx>, stop: Option<BlockId>,
                 nodes: seq<StructureNode>, more: seq<StructureNode>, exit: Exit)
    requires Walked(c, entry, current, end, ctx, stop, nodes)
    requires Simulates(ProgramOf(c), more, current, exit)
    requires exit == Never || exit == ExitOf(c, current, end, ctx)
    ensures Complete(c, entry, end, ctx, nodes + more)
  {
    SimulatesThen(ProgramOf(c), nodes, more, entry, current, exit);
    if exit == Never {
      SimulatesNever(ProgramOf(c), nodes + more, entry, ExitOf(c, entry, end, ctx));
    }
  }

  // ── Straight-line blocks ─────────────────────────────────────────────────

  lemma WalkJump(c: Cfg, entry: BlockId, current: BlockId, target: BlockId, end: Option<BlockId>, ctx: Option<LoopCtx>, stop: Option<BlockId>,
                 nodes: seq<StructureNode>)
    requires Structurable(c) && Walked(c, entry, current, end, ctx, stop, nodes)
    requires end != Some(current) && stop != Some(current)
    requires c.blocks[current].terminator == Jump(target) || c.blocks[current].terminator == Fallthrough(target)
    ensures Walked(c, entry, target, end, ctx, stop, nodes + [Linear(current)])
  {
    hide ValidCfg, HeaderExitLoops, EndOk, CtxOk, Simulates, RootReach, PostDom, BodyOf;
    CallerOf(c, current);
    OnlyStepOk(c, current, target, end, ctx, stop);
    ProgramBlock(c, current);
    hide ProgramOf, BlockOk;
    SimulatesJump(ProgramOf(c), current, target);
    WalkOn(c, entry, current, target, end, ctx, stop, nodes, [Linear(current)]);
  }

  lemma WalkCall(c: Cfg, entry: BlockId, current: BlockId, callee: BlockId, continuation: BlockId, end: Option<BlockId>,
                 ctx: Option<LoopCtx>, stop: Option<BlockId>, nodes: seq<StructureNode>)
    requires Structurable(c) && Walked(c, entry, current, end, ctx, stop, nodes)
    requires end != Some(current) && stop != Some(current)
    requires c.blocks[current].terminator == Call(callee, continuation)
    ensures callee in ProgramOf(c).diverging ==> Complete(c, entry, end, ctx, nodes + [Linear(current), CallNode(callee)])
    ensures callee !in ProgramOf(c).diverging ==>
              Walked(c, entry, continuation, end, ctx, stop, nodes + [Linear(current), CallNode(callee)])
  {
    CallerOf(c, current);
    SimulatesCall(ProgramOf(c), current, callee, continuation);
    var more := [Linear(current), CallNode(callee)];
    if callee in ProgramOf(c).diverging {
      WalkEnds(c, entry, current, end, ctx, stop, nodes, more, Never);
    } else {
      if callee in NonReturning(c.blocks) {
        NonReturningDiverges(c, current);
      }
      OnlyStepOk(c, current, continuation, end, ctx, stop);
      WalkOn(c, entry, current, continuation, end, ctx, stop, nodes, more);
    }
  }

  lemma WalkReturn(c: Cfg, entry: BlockId, current: BlockId, end: Option<BlockId>, ctx: Option<LoopCtx>, stop: Option<BlockId>,
                   nodes: seq<StructureNode>, node: StructureNode)
    requires Structurable(c) && Walked(c, entry, current, end, ctx, stop, nodes)
    requires end != Some(current) && stop != Some(current)
    requires (c.blocks[current].terminator.Return? && node == ReturnNode(current))
          || (c.blocks[current].terminator.Stop? && node == StopNode(current))
    ensures Complete(c, entry, end, ctx, nodes + [Linear(current), node])
  {
    ExitMeansLeave(c, current, end, ctx, stop);
    SimulatesEnd(ProgramOf(c), current, node);
    WalkEnds(c, entry, current, end, ctx, stop, nodes, [Linear(current), node], Leave);
  }

  lemma WalkTrap(c: Cfg, entry: BlockId, current: BlockId, end: Option<BlockId>, ctx: Option<LoopCtx>, stop: Option<BlockId>,
                 nodes: seq<StructureNode>)
    requires Structurable(c) && Walked(c, entry, current, end, ctx, stop, nodes)
    requires c.blocks[current].terminator.Trap? || c.blocks[current].terminator.TrapReturn?
    ensures Complete(c, entry, end, ctx, nodes + [Linear(current), TrapNode(current)])
  {
    SimulatesTrap(ProgramOf(c), current);
    WalkEnds(c, entry, current, end, ctx, stop, nodes, [Linear(current), TrapNode(current)], Never);
  }

  // ── Conditional jumps ────────────────────────────────────────────────────

  lemma WalkAssert(c: Cfg, entry: BlockId, current: BlockId, t: Terminator, end: Option<BlockId>, ctx: Option<LoopCtx>, stop: Option<BlockId>,
                   nodes: seq<StructureNode>)
    requires Structurable(c) && Walked(c, entry, current, end, ctx, stop, nodes)
    requires end != Some(current) && stop != Some(current)
    requires c.blocks[current].terminator == t && t.JumpIf?
    requires !IsLive(c, t.elseBlock) && IsLive(c, t.thenBlock)
    ensures Walked(c, entry, t.thenBlock, end, ctx, stop, nodes + [Linear(current), BoolAssert(current, t.condition)])
  {
    CallerOf(c, current);
    assert Edge(c.callerSucc, current, t.thenBlock);
    if !IsLive(c, current) {
      DivergentArms(c, current, end, ctx, stop);
    }
    StepOk(c, current, t.thenBlock, end, ctx, stop);
    var k := DivergentBlockFails(c, t.elseBlock);
    SimulatesAssert(ProgramOf(c), current, t, k);
    WalkOn(c, entry, current, t.thenBlock, end, ctx, stop, nodes, [Linear(current), BoolAssert(current, t.condition)]);
  }

  /** A completed arm that ends at the join, or always fails, runs to the join. */
  lemma ArmTo(c: Cfg, arm: BlockId, end: Option<BlockId>, ctx: Option<LoopCtx>, nodes: seq<StructureNode>, exit: Exit)
    requires Complete(c, arm, end, ctx, nodes)
    requires IsLive(c, arm) ==> exit == ExitOf(c, arm, end, ctx)
    ensures Simulates(ProgramOf(c), nodes, arm, exit)
  {
    if !IsLive(c, arm) {
      SimulatesNever(ProgramOf(c), nodes, arm, exit);
    }
  }

  lemma WalkJoin(c: Cfg, entry: BlockId, current: BlockId, t: Terminator, j: BlockId, end: Option<BlockId>, ctx: Option<LoopCtx>,
                 stop: Option<BlockId>, nodes: seq<StructureNode>, thenBranch: seq<StructureNode>, elseBranch: seq<StructureNode>)
    requires Structurable(c) && Walked(c, entry, current, end, ctx, stop, nodes)
    requires end != Some(current) && stop != Some(current) && !HeaderOf(c, current)
    requires c.blocks[current].terminator == t && t.JumpIf? && JoinAt(c, current) == Some(j)
    requires Complete(c, t.thenBlock, Some(j), ctx, thenBranch) && Complete(c, t.elseBlock, Some(j), ctx, elseBranch)
    ensures Walked(c, entry, j, end, ctx, stop, nodes + [Linear(current), IfThenElse(current, t.condition, thenBranch, elseBranch)])
  {
    ArmsOk(c, current, j, end, ctx, stop);
    ArmTo(c, t.thenBlock, Some(j), ctx, thenBranch, At(j));
    ArmTo(c, t.elseBlock, Some(j), ctx, elseBranch, At(j));
    SimulatesIf(ProgramOf(c), current, t, thenBranch, elseBranch, At(j));
    WalkOn(c, entry, current, j, end, ctx, stop, nodes, [Linear(current), IfThenElse(current, t.condition, thenBranch, elseBranch)]);
  }

  /** One arm diverges: it goes into the conditional, and the walk resumes at
      the other arm. */
  lemma WalkHalf(c: Cfg, entry: BlockId, current: BlockId, t: Terminator, thenDiverges: bool, end: Option<BlockId>, ctx: Option<LoopCtx>,
                 stop: Option<BlockId>, nodes: seq<StructureNode>, branch: seq<StructureNode>)
    requires Structurable(c) && Walked(c, entry, current, end, ctx, stop, nodes)
    requires end != Some(current) && stop != Some(current)
    requires c.blocks[current].terminator == t && t.JumpIf?
    requires !IsLive(c, if thenDiverges then t.thenBlock else t.elseBlock)
    requires IsLive(c, if thenDiverges then t.elseBlock else t.thenBlock)
    requires Complete(c, if thenDiverges then t.thenBlock else t.elseBlock, None, ctx, branch)
    ensures var next := if thenDiverges then t.elseBlock else t.thenBlock;
            var node := if thenDiverges then IfThenElse(current, t.condition, branch, []) else IfThenElse(current, t.condition, [], branch);
            Walked(c, entry, next, end, ctx, stop, nodes + [Linear(current), node])
  {
    var next := if thenDiverges then t.elseBlock else t.thenBlock;
    CallerOf(c, current);
    assert Edge(c.callerSucc, current, next) by {
      assert t.thenBlock in Targets(t) && t.elseBlock in Targets(t);
    }
    if !IsLive(c, current) {
      DivergentArms(c, current, end, ctx, stop);
    }
    StepOk(c, current, next, end, ctx, stop);
    var g := ProgramOf(c);
    SimulatesNothing(g, next);
    ArmTo(c, if thenDiverges then t.thenBlock else t.elseBlock, None, ctx, branch, At(next));
    if thenDiverges {
      SimulatesIf(g, current, t, branch, [], At(next));
      WalkOn(c, entry, current, next, end, ctx, stop, nodes, [Linear(current), IfThenElse(current, t.condition, branch, [])]);
    } else {
      SimulatesIf(g, current, t, [], branch, At(next));
      WalkOn(c, entry, current, next, end, ctx, stop, nodes, [Linear(current), IfThenElse(current, t.condition, [], branch)]);
    }
  }

  /** The regions of the two arms when nothing joins them. */
  lemma LeafArmsOk(c: Cfg, current: BlockId, t: Terminator, end: Option<BlockId>, ctx: Option<LoopCtx>, stop: Option<BlockId>)
    requires Structurable(c) && RegionOk(c, current, end, ctx, stop)
    requires end != Some(current) && stop != Some(current)
    requires c.blocks[current].terminator == t && t.JumpIf?
    ensures RegionOk(c, t.thenBlock, None, ctx, stop) && RegionOk(c, t.elseBlock, None, ctx, stop)
    ensures !IsLive(c, current) ==> !IsLive(c, t.thenBlock) && !IsLive(c, t.elseBlock)
  {
    CallerOf(c, current);
    assert Edge(c.callerSucc, current, t.thenBlock) && Edge(c.callerSucc, current, t.elseBlock);
    assert RegionOk(c, current, None, ctx, stop);
    if IsLive(c, current) {
      StepOk(c, current, t.thenBlock, None, ctx, stop);
      StepOk(c, current, t.elseBlock, None, ctx, stop);
    } else {
      DivergentArms(c, current, end, ctx, stop);
      DivergentStepOk(c, current, t.thenBlock, None, ctx, stop);
      DivergentStepOk(c, current, t.elseBlock, None, ctx, stop);
    }
  }

  lemma WalkLeaves(c: Cfg, entry: BlockId, current: BlockId, t: Terminator, end: Option<BlockId>, ctx: Option<LoopCtx>,
                   stop: Option<BlockId>, nodes: seq<StructureNode>, thenBranch: seq<StructureNode>, elseBranch: seq<StructureNode>)
    requires Structurable(c) && Walked(c, entry, current, end, ctx, stop, nodes)
    requires end != Some(current) && stop != Some(current) && JoinAt(c, current).None?
    requires c.blocks[current].terminator == t && t.JumpIf?
    requires IsLive(c, t.thenBlock) <==> IsLive(c, t.elseBlock)
    requires Complete(c, t.thenBlock, None, ctx, thenBranch) && Complete(c, t.elseBlock, None, ctx, elseBranch)
    ensures Complete(c, entry, end, ctx, nodes + [Linear(current), IfThenElse(current, t.condition, thenBranch, elseBranch)])
  {
    var exit := if IsLive(c, t.thenBlock) then Leave else Never;
    if IsLive(c, t.thenBlock) {
      if !IsLive(c, current) {
        DivergentArms(c, current, end, ctx, stop);
      }
      NoJoinMeansLeave(c, current, end, ctx, stop);
    }
    ArmTo(c, t.thenBlock, None, ctx, thenBranch, exit);
    ArmTo(c, t.elseBlock, None, ctx, elseBranch, exit);
    SimulatesIf(ProgramOf(c), current, t, thenBranch, elseBranch, exit);
    WalkEnds(c, entry, current, end, ctx, stop, nodes,
             [Linear(current), IfThenElse(current, t.condition, thenBranch, elseBranch)], exit);
  }

  // ── Loops ────────────────────────────────────────────────────────────────

  function LinearNodes(chain: seq<BlockId>): seq<StructureNode> {
    seq(|chain|, i requires 0 <= i < |chain| => Linear(chain[i]))
  }

  /** The trampolines a loop exits through. */
  lemma {:induction false} ExitChain(c: Cfg, p: BlockId, start: BlockId, chain: seq<BlockId>, dest: BlockId, end: Option<BlockId>,
                                     ctx: Option<LoopCtx>, stop: Option<BlockId>)
    requires Structurable(c) && Indexed(c) && TrampolineChain(c, start, chain, dest)
    requires RegionOk(c, p, end, ctx, stop) && IsLive(c, p) && end != Some(p)
    requires HeaderOf(c, p) || c.blocks[p].terminator.Jump? || c.blocks[p].terminator.Fallthrough?
    requires Edge(c.callerSucc, p, start) && RegionOk(c, start, end, ctx, stop) && IsLive(c, start)
    ensures RegionOk(c, dest, end, ctx, stop) && IsLive(c, dest)
    ensures Simulates(ProgramOf(c), LinearNodes(chain), start, At(dest))
    decreases |chain|
  {
    hide ValidCfg, HeaderExitLoops, RegionOk, Simulates, HeaderOf, ProgramOf;
    var g := ProgramOf(c);
    if chain == [] {
      assert LinearNodes(chain) == [];
      SimulatesNothing(g, start);
    } else {
      var next := TrampolineNext(c, start);
      TrampolineNotEnd(c, p, start, end, ctx, stop);
      TrampolineNotStop(c, start, end, ctx, stop);
      OnlyStepOk(c, start, next, end, ctx, stop);
      assert Edge(c.callerSucc, start, next);
      ExitChain(c, start, next, chain[1..], dest, end, ctx, stop);
      ProgramBlock(c, start);
      SimulatesJump(g, start, next);
      SimulatesThen(g, [Linear(start)], LinearNodes(chain[1..]), start, next, At(dest));
      assert LinearNodes(chain) == [Linear(start)] + LinearNodes(chain[1..]);
    }
  }

  lemma ProgramBlock(c: Cfg, b: BlockId)
    ensures ProgramOf(c).blocks == c.blocks
  {
  }

  lemma TrampolineNext(c: Cfg, b: BlockId) returns (next: BlockId)
    requires ValidCfg(c) && Indexed(c) && b < |c.blocks| && IsTrampoline(c, b)
    ensures next == c.successors[b][0] && c.callerSucc[b] == [next]
    ensures c.blocks[b].terminator == Jump(next) || c.blocks[b].terminator == Fallthrough(next)
    ensures b < |c.callerPred| && |c.callerPred[b]| == 1
  {
    CallerOf(c, b);
    assert c.successors[b] == Targets(c.blocks[b].terminator);
    next := c.successors[b][0];
  }

  lemma TrampolineNotStop(c: Cfg, b: BlockId, end: Option<BlockId>, ctx: Option<LoopCtx>, stop: Option<BlockId>)
    requires Structurable(c) && Indexed(c) && RegionOk(c, b, end, ctx, stop) && b < |c.blocks| && IsTrampoline(c, b)
    ensures stop != Some(b)
  {
    if stop == Some(b) {
      HeaderIsJumpIf(c, b);
    }
  }

  lemma ForwardEdge(c: Cfg, u: BlockId, v: BlockId)
    requires ValidCfg(c) && Reached(c, u) && Edge(c.callerSucc, u, v) && !HeaderOf(c, v)
    ensures Reached(c, v) && Index(c.dominators.rpoIndex, u) < Index(c.dominators.rpoIndex, v)
  {
    Sizes(c);
    ReachedEdge(c, u, v);
    if Index(c.dominators.rpoIndex, v) <= Index(c.dominators.rpoIndex, u) {
      EntersLowest(c, u, v);
    }
  }

  /** An edge to a block of the body, or a back edge, starts in the body. */
  lemma SourceInBody(c: Cfg, h: BlockId, u: BlockId, v: BlockId)
    requires Edge(c.callerSucc, u, v) && u != h
    requires BackEdge(c.callerSucc, Roots(c), u, h) || v != h
    requires BodyOf(c, h, v)
    ensures BodyOf(c, h, u)
  {
    if BackEdge(c.callerSucc, Roots(c), u, h) {
      assert AvoidingPath(c.callerSucc, h, [u], u, u);
    } else {
      var p, s :| BackEdge(c.callerSucc, Roots(c), s, h) && AvoidingPath(c.callerSucc, h, p, v, s);
      PathCons(c.callerSucc, p, u, v, s);
      assert AvoidingPath(c.callerSucc, h, [u] + p, u, s);
    }
  }

  /** A block outside the body has no edge into the body except to the header,
      and none that goes against the numbering. */
  lemma OutsideStaysOutside(c: Cfg, h: BlockId, u: BlockId, v: BlockId)
    requires ValidCfg(c) && Reached(c, u) && Reached(c, h) && !BodyOf(c, h, u) && Edge(c.callerSucc, u, v)
    requires Index(c.dominators.rpoIndex, h) < Index(c.dominators.rpoIndex, u)
    ensures !BodyOf(c, h, v)
  {
    hide ValidCfg, RootReach, HeaderOf, RootDominates, Index, BodyOf, BackEdge;
    if v == h {
      EntersLowest(c, u, h);
    }
    if BodyOf(c, h, v) {
      SourceInBody(c, h, u, v);
    }
  }

  /** The blocks behind the exit arm lie outside the loop. */
  lemma {:induction false} ChainOutside(c: Cfg, h: BlockId, p: BlockId, start: BlockId, chain: seq<BlockId>, dest: BlockId)
    requires Structurable(c) && Indexed(c) && TrampolineChain(c, start, chain, dest)
    requires Reached(c, h) && Reached(c, p) && Edge(c.callerSucc, p, start) && !BodyOf(c, h, start)
    requires Index(c.dominators.rpoIndex, h) <= Index(c.dominators.rpoIndex, p)
    ensures !BodyOf(c, h, dest)
    decreases |chain|
  {
    hide ValidCfg, HeaderExitLoops, BodyOf, Reached;
    if chain != [] {
      var next := TrampolineNext(c, start);
      TrampolineNotHeader(c, start);
      ForwardEdge(c, p, start);
      assert Edge(c.callerSucc, start, next);
      OutsideStaysOutside(c, h, start, next);
      ChainOutside(c, h, start, next, chain[1..], dest);
    }
  }

  lemma TrampolineNotHeader(c: Cfg, b: BlockId)
    requires Structurable(c) && Indexed(c) && b < |c.blocks| && IsTrampoline(c, b)
    ensures !HeaderOf(c, b)
  {
    if HeaderOf(c, b) {
      HeaderIsJumpIf(c, b);
    }
  }

  /** A header that is walked has a body region of its own. */
  lemma LoopBodyOk(c: Cfg, h: BlockId, l: NaturalLoop, shape: LoopShape, end: Option<BlockId>, ctx: Option<LoopCtx>, stop: Option<BlockId>)
    requires Structurable(c) && Indexed(c) && RegionOk(c, h, end, ctx, stop) && HeaderOf(c, h)
    requires end != Some(h) && stop != Some(h)
    requires IsLoop(c.callerSucc, Roots(c), l) && l.header == h && DecidesExit(c, l)
    requires ValidShape(c, l, shape) && shape.effectiveHeader == h
    ensures RegionOk(c, shape.bodyEntry, None, Some(LoopCtx(h, shape.exitDest, None)), Some(h))
    ensures RegionOk(c, shape.exitDest, end, ctx, stop)
  {
    var t := c.blocks[h].terminator;
    var exitArm := Outside(t, shape.condition.value.polarity);
    HeaderIsJumpIf(c, h);
    CallerOf(c, h);
    assert t.thenBlock in Targets(t) && t.elseBlock in Targets(t);
    assert Edge(c.callerSucc, h, shape.bodyEntry) && Edge(c.callerSucc, h, exitArm);
    ReachedEdge(c, h, shape.bodyEntry);
    StepOk(c, h, exitArm, end, ctx, stop);
    ExitChain(c, h, exitArm, shape.exitPrefix, shape.exitDest, end, ctx, stop);
    ChainOutside(c, h, h, exitArm, shape.exitPrefix, shape.exitDest);
  }

  /** The loop node and the trampolines behind it run from the header to where
      the loop exits. */
  lemma LoopSimulated(c: Cfg, h: BlockId, l: NaturalLoop, shape: LoopShape, end: Option<BlockId>, ctx: Option<LoopCtx>,
                      stop: Option<BlockId>, body: seq<StructureNode>)
    requires Structurable(c) && Indexed(c) && RegionOk(c, h, end, ctx, stop) && HeaderOf(c, h)
    requires end != Some(h) && stop != Some(h)
    requires IsLoop(c.callerSucc, Roots(c), l) && l.header == h && DecidesExit(c, l)
    requires ValidShape(c, l, shape) && shape.effectiveHeader == h
    requires Complete(c, shape.bodyEntry, None, Some(LoopCtx(h, shape.exitDest, None)), body)
    ensures RegionOk(c, shape.exitDest, end, ctx, stop) && IsLive(c, shape.exitDest) && IsLive(c, h)
    ensures Simulates(ProgramOf(c), [Loop(h, [Linear(h)], shape.condition, None, body)] + LinearNodes(shape.exitPrefix), h, At(shape.exitDest))
  {
    var g := ProgramOf(c);
    var t := c.blocks[h].terminator;
    var p := shape.condition.value.polarity;
    var exitArm := Outside(t, p);
    HeaderIsJumpIf(c, h);
    CallerOf(c, h);
    assert Edge(c.callerSucc, h, exitArm) by {
      assert t.thenBlock in Targets(t) && t.elseBlock in Targets(t);
    }
    ArmTo(c, shape.bodyEntry, None, Some(LoopCtx(h, shape.exitDest, None)), body, At(h));
    SimulatesLoop(g, h, t, p, body);
    StepOk(c, h, exitArm, end, ctx, stop);
    ExitChain(c, h, exitArm, shape.exitPrefix, shape.exitDest, end, ctx, stop);
    var node := Loop(h, [Linear(h)], Some(LoopCondition(t.condition, p)), None, body);
    assert shape.condition == Some(LoopCondition(t.condition, p));
    SimulatesThen(g, [node], LinearNodes(shape.exitPrefix), h, exitArm, At(shape.exitDest));
  }

  /** No exit edge starts inside the body, so no escape flag is allocated. */
  lemma NoInnerExits(c: Cfg, l: NaturalLoop, shape: LoopShape, i: nat)
    requires Structurable(c) && Indexed(c) && i < |c.loops| && c.loops[i] == l && ValidShape(c, l, shape)
    ensures forall e :: e in shape.exitEdges ==> e.0 == l.header
  {
    forall e | e in shape.exitEdges
      ensures e.0 == l.header
    {
      assert IsExitEdge(c, l, e.0, e.1);
    }
  }
}
