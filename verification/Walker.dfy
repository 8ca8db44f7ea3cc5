/** The walker (`State` in `walker.rs`): turns a body of the graph into nodes. */
module Walker {
  import opened Graphs
  import opened CfgTypes
  import opened DomTrees
  import opened Loops
  import opened Rewrites
  import opened CfgBuild
  import opened StructureTree
  import opened EscapeFlags
  import opened Simulation
  import opened LoopShapes
  import opened RegionFacts
  import opened RegionWalk
  import opened RegionSteps
  import opened RegionProgress
  import opened FlaggedLoops
  import opened TailBreaks
  import Views

  /** `index` finds a loop by its header. */
  ghost predicate LoopIndex(c: Cfg, index: map<BlockId, nat>) {
    && (forall h :: h in index <==> HeaderOf(c, h))
    && (forall h :: h in index ==> index[h] < |c.loops| && c.loops[index[h]].header == h)
  }

  ghost predicate ProcedureIndex(c: Cfg, index: map<BlockId, nat>) {
    && (forall e :: e in index <==> exists i :: 0 <= i < |c.procedures| && c.procedures[i].entry == e)
    && (forall e :: e in index ==> index[e] < |c.procedures| && c.procedures[index[e]].entry == e)
  }

  /** A true premise says the region is one the simulation covers. */
  ghost predicate Covered(c: Cfg, b: BlockId, end: Option<BlockId>, ctx: Option<LoopCtx>, stop: Option<BlockId>) {
    Structurable(c) && RegionOk(c, b, end, ctx, stop)
  }

  /** No panic, and the nodes run as the graph does. */
  ghost predicate Faithful(c: Cfg, b: BlockId, end: Option<BlockId>, ctx: Option<LoopCtx>, r: Outcome<seq<StructureNode>>) {
    !r.Panicked? && (r.Done? ==> Complete(c, b, end, ctx, r.value))
  }

  /** What a walk that stands at `b` needs: less the further up it is, and enough
      for the walks of a loop's classification. */
  function Budget(c: Cfg, b: BlockId): int {
    3 * |c.blocks| + 6 - 2 * Rank(c, b)
  }

  /** A region whose walk does not run out of fuel. */
  ghost predicate Ready(c: Cfg, b: BlockId, end: Option<BlockId>, ctx: Option<LoopCtx>, stop: Option<BlockId>, fuel: nat) {
    && Covered(c, b, end, ctx, stop) && Innermost(c, b, ctx) && fuel > 0
    && (end == Some(b) || stop == Some(b) || Budget(c, b) <= fuel)
  }

  /** The same for a turn at `b`, which has been paid for. */
  ghost predicate Poised(c: Cfg, b: BlockId, end: Option<BlockId>, ctx: Option<LoopCtx>, stop: Option<BlockId>, fuel: nat) {
    && Covered(c, b, end, ctx, stop) && Innermost(c, b, ctx) && end != Some(b) && stop != Some(b)
    && Budget(c, b) <= fuel + 1
  }

  /** A turn that answers, and leaves the walk further up or at its end. */
  ghost predicate Advanced(c: Cfg, b: BlockId, ctx: Option<LoopCtx>, stop: Option<BlockId>,
                           r: Outcome<(seq<StructureNode>, Option<BlockId>)>) {
    r.Done? && (r.value.1.Some? ==> Onward(c, b, r.value.1.value, ctx, stop))
  }

  /** A true premise says the walk is in the body of a loop with a flag whose tests
      all lead back to the header or out. */
  ghost predicate InTail(c: Cfg, b: BlockId, end: Option<BlockId>, ctx: Option<LoopCtx>, stop: Option<BlockId>, inner: set<BlockId>) {
    && ctx.Some? && ctx.value.escapeFlag.Some? && stop == Some(ctx.value.header)
    && (end == None || end == Some(ctx.value.header) || end == Some(ctx.value.exitDest))
    && TailBody(c, FrameOf(ctx.value, inner)) && b in inner + {ctx.value.header, ctx.value.exitDest}
  }

  /** The walk ends, unless the fuel does, and its nodes run to the header or break
      where the graph stands at the exit. */
  ghost predicate TailDone(c: Cfg, b: BlockId, ctx: Option<LoopCtx>, inner: set<BlockId>, r: Outcome<seq<StructureNode>>) {
    && ctx.Some? && ctx.value.escapeFlag.Some? && (r.Done? || r.OutOfFuel?)
    && (r.Done? ==> Steps(c, FrameOf(ctx.value, inner), b, ctx.value.header, r.value))
  }

  /** The same for a turn, which may lead on. */
  ghost predicate TailMoved(c: Cfg, b: BlockId, ctx: Option<LoopCtx>, inner: set<BlockId>, r: Outcome<(seq<StructureNode>, Option<BlockId>)>) {
    && ctx.Some? && ctx.value.escapeFlag.Some? && (r.Done? || r.OutOfFuel?)
    && (r.Done? ==> Steps(c, FrameOf(ctx.value, inner), b, if r.value.1.Some? then r.value.1.value else ctx.value.header, r.value.0))
  }

  method IndexLoops(c: Cfg) returns (index: map<BlockId, nat>)
    ensures LoopIndex(c, index)
  {
    index := map[];
    for i := 0 to |c.loops|
      invariant forall h :: h in index <==> exists j :: 0 <= j < i && c.loops[j].header == h
      invariant forall h :: h in index ==> index[h] < i && c.loops[index[h]].header == h
    {
      index := index[c.loops[i].header := i];
    }
  }

  method IndexProcedures(c: Cfg) returns (index: map<BlockId, nat>)
    ensures ProcedureIndex(c, index)
  {
    index := map[];
    for i := 0 to |c.procedures|
      invariant forall e :: e in index <==> exists j :: 0 <= j < i && c.procedures[j].entry == e
      invariant forall e :: e in index ==> index[e] < i && c.procedures[index[e]].entry == e
    {
      index := index[c.procedures[i].entry := i];
    }
  }

  lemma CallIndexed(c: Cfg, index: map<BlockId, nat>, b: BlockId)
    requires ValidCfg(c) && ProcedureIndex(c, index) && b < |c.blocks| && c.blocks[b].terminator.Call?
    ensures c.blocks[b].terminator.callee in index
  {
  }

  /** Entries are distinct, so the indexed procedure decides divergence. */
  lemma DivergingIndexed(c: Cfg, index: map<BlockId, nat>, e: BlockId)
    requires ValidCfg(c) && ProcedureIndex(c, index) && e in index
    ensures index[e] < |c.procedures|
    ensures c.procedures[index[e]].returnBlock.None? <==> e in ProgramOf(c).diverging
  {
    assert forall i, j :: 0 <= i < j < |c.procedures| ==> c.procedures[i].entry < c.procedures[j].entry;
    hide ValidCfg, ProcedureIndex;
  }

  lemma TerminatorTargets(c: Cfg, b: BlockId)
    requires Indexed(c) && b < |c.blocks|
    ensures var t := c.blocks[b].terminator;
            && ((t.Jump? || t.Fallthrough?) ==> t.target < |c.blocks|)
            && (t.JumpIf? ==> t.thenBlock < |c.blocks| && t.elseBlock < |c.blocks|)
            && (t.Call? ==> t.continuation < |c.blocks|)
  {
    var t := c.blocks[b].terminator;
    assert (t.Jump? || t.Fallthrough?) ==> t.target in Views.Targets(t);
    assert t.JumpIf? ==> t.thenBlock in Views.Targets(t) && t.elseBlock in Views.Targets(t);
    assert t.Call? ==> t.continuation in Views.Targets(t);
  }

  lemma NotUnreachable(c: Cfg, b: BlockId, end: Option<BlockId>, ctx: Option<LoopCtx>, stop: Option<BlockId>)
    requires Covered(c, b, end, ctx, stop)
    ensures !c.blocks[b].terminator.Unreachable?
  {
  }

  ghost predicate OnTrack(c: Cfg, entry: BlockId, current: BlockId, end: Option<BlockId>, ctx: Option<LoopCtx>, stop: Option<BlockId>,
                          nodes: seq<StructureNode>) {
    Structurable(c) && Walked(c, entry, current, end, ctx, stop, nodes)
  }

  /** A turn at `current` did not panic; its nodes run to the next block, or to
      the end of the region. */
  ghost predicate Moved(c: Cfg, current: BlockId, end: Option<BlockId>, ctx: Option<LoopCtx>, stop: Option<BlockId>,
                        r: Outcome<(seq<StructureNode>, Option<BlockId>)>) {
    && !r.Panicked?
    && (r.Done? && r.value.1.Some? ==> Walked(c, current, r.value.1.value, end, ctx, stop, r.value.0))
    && (r.Done? && r.value.1.None? ==> Complete(c, current, end, ctx, r.value.0))
  }

  lemma TrackStart(c: Cfg, entry: BlockId, end: Option<BlockId>, ctx: Option<LoopCtx>, stop: Option<BlockId>)
    requires Covered(c, entry, end, ctx, stop)
    ensures OnTrack(c, entry, entry, end, ctx, stop, [])
  {
    WalkBegins(c, entry, end, ctx, stop);
  }

  lemma TrackCovered(c: Cfg, entry: BlockId, current: BlockId, end: Option<BlockId>, ctx: Option<LoopCtx>, stop: Option<BlockId>,
                     nodes: seq<StructureNode>)
    requires OnTrack(c, entry, current, end, ctx, stop, nodes)
    ensures Covered(c, current, end, ctx, stop)
  {
  }

  lemma TrackNotAtExit(c: Cfg, entry: BlockId, current: BlockId, end: Option<BlockId>, ctx: Option<LoopCtx>, stop: Option<BlockId>,
                       nodes: seq<StructureNode>)
    requires OnTrack(c, entry, current, end, ctx, stop, nodes) && ctx.Some?
    ensures current != ctx.value.exitDest
  {
  }

  lemma TrackStops(c: Cfg, entry: BlockId, current: BlockId, end: Option<BlockId>, ctx: Option<LoopCtx>, stop: Option<BlockId>,
                   nodes: seq<StructureNode>)
    requires OnTrack(c, entry, current, end, ctx, stop, nodes)
    requires end == Some(current) || stop == Some(current)
    ensures Complete(c, entry, end, ctx, nodes)
  {
    WalkStops(c, entry, current, end, ctx, stop, nodes);
  }

  lemma MovedNoPanic(c: Cfg, current: BlockId, end: Option<BlockId>, ctx: Option<LoopCtx>, stop: Option<BlockId>,
                     r: Outcome<(seq<StructureNode>, Option<BlockId>)>)
    requires Moved(c, current, end, ctx, stop, r)
    ensures !r.Panicked?
  {
  }

  /** A turn extends the walk, or completes it. */
  lemma TrackMoves(c: Cfg, entry: BlockId, current: BlockId, end: Option<BlockId>, ctx: Option<LoopCtx>, stop: Option<BlockId>,
                   nodes: seq<StructureNode>, r: Outcome<(seq<StructureNode>, Option<BlockId>)>)
    requires OnTrack(c, entry, current, end, ctx, stop, nodes) && r.Done? && Moved(c, current, end, ctx, stop, r)
    ensures r.value.1.Some? ==> OnTrack(c, entry, r.value.1.value, end, ctx, stop, nodes + r.value.0)
    ensures r.value.1.None? ==> Complete(c, entry, end, ctx, nodes + r.value.0)
  {
    if r.value.1.Some? {
      WalkOn(c, entry, current, r.value.1.value, end, ctx, stop, nodes, r.value.0);
    } else {
      WalkEnds(c, entry, current, end, ctx, stop, nodes, r.value.0, ExitOf(c, current, end, ctx));
    }
  }

  lemma IndexBounds(c: Cfg, index: map<BlockId, nat>)
    requires LoopIndex(c, index)
    ensures forall h :: h in index ==> index[h] < |c.loops| && c.loops[index[h]].header == h
  {
  }

  /** A header other than the one being walked is in the index. */
  lemma TurnNotHeader(c: Cfg, index: map<BlockId, nat>, current: BlockId, end: Option<BlockId>, ctx: Option<LoopCtx>, stop: Option<BlockId>)
    requires LoopIndex(c, index) && Covered(c, current, end, ctx, stop) && stop != Some(current)
    requires !(current in index && !(ctx.Some? && ctx.value.header == current))
    ensures !HeaderOf(c, current)
  {
  }

  lemma NotIndexed(c: Cfg, index: map<BlockId, nat>, b: BlockId)
    requires LoopIndex(c, index) && !HeaderOf(c, b)
    ensures b !in index
  {
  }

  lemma CoveredNoFlag(c: Cfg, current: BlockId, end: Option<BlockId>, ctx: Option<LoopCtx>, stop: Option<BlockId>)
    requires Covered(c, current, end, ctx, stop)
    ensures ctx.Some? ==> ctx.value.escapeFlag.None?
  {
  }

  lemma OutOfFuelMoves(c: Cfg, current: BlockId, end: Option<BlockId>, ctx: Option<LoopCtx>, stop: Option<BlockId>)
    ensures Moved(c, current, end, ctx, stop, OutOfFuel)
  {
  }

  lemma FailedMoves<T>(c: Cfg, current: BlockId, end: Option<BlockId>, ctx: Option<LoopCtx>, stop: Option<BlockId>, r: Outcome<T>)
    requires !r.Done? && !r.Panicked?
    ensures Moved(c, current, end, ctx, stop, Fail(r))
  {
  }

  lemma ArmFails(c: Cfg, current: BlockId, end: Option<BlockId>, ctx: Option<LoopCtx>, stop: Option<BlockId>, r: Outcome<seq<StructureNode>>)
    requires !r.Done? && !r.Panicked?
    ensures Moved(c, current, end, ctx, stop, Fail(r))
  {
  }

  lemma MoveJump(c: Cfg, current: BlockId, target: BlockId, end: Option<BlockId>, ctx: Option<LoopCtx>, stop: Option<BlockId>)
    requires current < |c.blocks|
    requires c.blocks[current].terminator == Jump(target) || c.blocks[current].terminator == Fallthrough(target)
    requires Covered(c, current, end, ctx, stop) && end != Some(current) && stop != Some(current)
    ensures Moved(c, current, end, ctx, stop, Done(([Linear(current)], Some(target))))
  {
    hide Structurable, RegionOk, Walked, Complete;
    WalkBegins(c, current, end, ctx, stop);
    WalkJump(c, current, current, target, end, ctx, stop, []);
    assert [] + [Linear(current)] == [Linear(current)];
  }

  lemma MoveCall(c: Cfg, current: BlockId, callee: BlockId, continuation: BlockId, end: Option<BlockId>, ctx: Option<LoopCtx>, stop: Option<BlockId>)
    requires current < |c.blocks| && c.blocks[current].terminator == Call(callee, continuation)
    requires Covered(c, current, end, ctx, stop) && end != Some(current) && stop != Some(current)
    ensures Moved(c, current, end, ctx, stop,
                  Done(([Linear(current), CallNode(callee)], if callee in ProgramOf(c).diverging then None else Some(continuation))))
  {
    hide Structurable, RegionOk, Walked, Complete;
    WalkBegins(c, current, end, ctx, stop);
    WalkCall(c, current, current, callee, continuation, end, ctx, stop, []);
    assert [] + [Linear(current), CallNode(callee)] == [Linear(current), CallNode(callee)];
  }

  lemma MoveReturn(c: Cfg, current: BlockId, node: StructureNode, end: Option<BlockId>, ctx: Option<LoopCtx>, stop: Option<BlockId>)
    requires current < |c.blocks|
    requires (c.blocks[current].terminator.Return? && node == ReturnNode(current))
          || (c.blocks[current].terminator.Stop? && node == StopNode(current))
    requires Covered(c, current, end, ctx, stop) && end != Some(current) && stop != Some(current)
    ensures Moved(c, current, end, ctx, stop, Done(([Linear(current), node], None)))
  {
    hide Structurable, RegionOk, Walked, Complete;
    WalkBegins(c, current, end, ctx, stop);
    WalkReturn(c, current, current, end, ctx, stop, [], node);
    assert [] + [Linear(current), node] == [Linear(current), node];
  }

  lemma MoveTrap(c: Cfg, current: BlockId, end: Option<BlockId>, ctx: Option<LoopCtx>, stop: Option<BlockId>)
    requires current < |c.blocks|
    requires c.blocks[current].terminator.Trap? || c.blocks[current].terminator.TrapReturn?
    requires Covered(c, current, end, ctx, stop)
    ensures Moved(c, current, end, ctx, stop, Done(([Linear(current), TrapNode(current)], None)))
  {
    hide Structurable, RegionOk, Walked, Complete;
    WalkBegins(c, current, end, ctx, stop);
    WalkTrap(c, current, current, end, ctx, stop, []);
    assert [] + [Linear(current), TrapNode(current)] == [Linear(current), TrapNode(current)];
  }

  lemma MoveAssert(c: Cfg, current: BlockId, t: Terminator, end: Option<BlockId>, ctx: Option<LoopCtx>, stop: Option<BlockId>)
    requires current < |c.blocks| && c.blocks[current].terminator == t && t.JumpIf?
    requires t.elseBlock in c.divergentBlocks && t.thenBlock !in c.divergentBlocks
    requires Covered(c, current, end, ctx, stop) && end != Some(current) && stop != Some(current)
    ensures Moved(c, current, end, ctx, stop, Done(([Linear(current), BoolAssert(current, t.condition)], Some(t.thenBlock))))
  {
    hide Structurable, RegionOk, Walked, Complete;
    WalkBegins(c, current, end, ctx, stop);
    WalkAssert(c, current, current, t, end, ctx, stop, []);
    assert [] + [Linear(current), BoolAssert(current, t.condition)] == [Linear(current), BoolAssert(current, t.condition)];
  }

  lemma JoinArmsCovered(c: Cfg, current: BlockId, t: Terminator, join: BlockId, end: Option<BlockId>, ctx: Option<LoopCtx>, stop: Option<BlockId>)
    requires current < |c.blocks| && c.blocks[current].terminator == t && t.JumpIf? && JoinAt(c, current) == Some(join)
    requires Covered(c, current, end, ctx, stop) && end != Some(current) && stop != Some(current) && !HeaderOf(c, current)
    ensures stop == if ctx.Some? then Some(ctx.value.header) else None
    ensures Covered(c, t.thenBlock, Some(join), ctx, stop) && Covered(c, t.elseBlock, Some(join), ctx, stop)
  {
    ArmsOk(c, current, join, end, ctx, stop);
  }

  lemma MoveJoin(c: Cfg, current: BlockId, t: Terminator, join: BlockId, end: Option<BlockId>, ctx: Option<LoopCtx>, stop: Option<BlockId>,
                 thenBranch: seq<StructureNode>, elseBranch: seq<StructureNode>)
    requires current < |c.blocks| && c.blocks[current].terminator == t && t.JumpIf? && JoinAt(c, current) == Some(join)
    requires Complete(c, t.thenBlock, Some(join), ctx, thenBranch) && Complete(c, t.elseBlock, Some(join), ctx, elseBranch)
    requires Covered(c, current, end, ctx, stop) && end != Some(current) && stop != Some(current) && !HeaderOf(c, current)
    ensures Moved(c, current, end, ctx, stop,
                  Done(([Linear(current), IfThenElse(current, t.condition, thenBranch, elseBranch)], Some(join))))
  {
    hide Structurable, RegionOk, Walked, Complete;
    WalkBegins(c, current, end, ctx, stop);
    WalkJoin(c, current, current, t, join, end, ctx, stop, [], thenBranch, elseBranch);
    var more := [Linear(current), IfThenElse(current, t.condition, thenBranch, elseBranch)];
    assert [] + more == more;
  }

  lemma LeafArmsCovered(c: Cfg, current: BlockId, t: Terminator, end: Option<BlockId>, ctx: Option<LoopCtx>, stop: Option<BlockId>)
    requires current < |c.blocks| && c.blocks[current].terminator == t && t.JumpIf?
    requires Covered(c, current, end, ctx, stop) && end != Some(current) && stop != Some(current)
    ensures stop == if ctx.Some? then Some(ctx.value.header) else None
    ensures Covered(c, t.thenBlock, None, ctx, stop) && Covered(c, t.elseBlock, None, ctx, stop)
  {
    LeafArmsOk(c, current, t, end, ctx, stop);
  }

  lemma MoveHalf(c: Cfg, current: BlockId, t: Terminator, thenDivergent: bool, end: Option<BlockId>, ctx: Option<LoopCtx>, stop: Option<BlockId>,
                 branch: seq<StructureNode>)
    requires current < |c.blocks| && c.blocks[current].terminator == t && t.JumpIf?
    requires thenDivergent == (t.thenBlock in c.divergentBlocks) && thenDivergent != (t.elseBlock in c.divergentBlocks)
    requires Complete(c, if thenDivergent then t.thenBlock else t.elseBlock, None, ctx, branch)
    requires Covered(c, current, end, ctx, stop) && end != Some(current) && stop != Some(current)
    ensures var next := if thenDivergent then t.elseBlock else t.thenBlock;
            var node := if thenDivergent then IfThenElse(current, t.condition, branch, []) else IfThenElse(current, t.condition, [], branch);
            Moved(c, current, end, ctx, stop, Done(([Linear(current), node], Some(next))))
  {
    hide Structurable, RegionOk, Walked, Complete, Moved;
    WalkBegins(c, current, end, ctx, stop);
    WalkHalf(c, current, current, t, thenDivergent, end, ctx, stop, [], branch);
    var next := if thenDivergent then t.elseBlock else t.thenBlock;
    var node := if thenDivergent then IfThenElse(current, t.condition, branch, []) else IfThenElse(current, t.condition, [], branch);
    assert [] + [Linear(current), node] == [Linear(current), node];
    MovedOn(c, current, next, end, ctx, stop, [Linear(current), node]);
  }

  lemma MovedOn(c: Cfg, current: BlockId, next: BlockId, end: Option<BlockId>, ctx: Option<LoopCtx>, stop: Option<BlockId>,
                nodes: seq<StructureNode>)
    requires Walked(c, current, next, end, ctx, stop, nodes)
    ensures Moved(c, current, end, ctx, stop, Done((nodes, Some(next))))
  {
  }

  lemma MoveLeaves(c: Cfg, current: BlockId, t: Terminator, end: Option<BlockId>, ctx: Option<LoopCtx>, stop: Option<BlockId>,
                   thenBranch: seq<StructureNode>, elseBranch: seq<StructureNode>)
    requires current < |c.blocks| && c.blocks[current].terminator == t && t.JumpIf?
    requires (t.thenBlock in c.divergentBlocks) == (t.elseBlock in c.divergentBlocks)
    requires Complete(c, t.thenBlock, None, ctx, thenBranch) && Complete(c, t.elseBlock, None, ctx, elseBranch)
    requires Covered(c, current, end, ctx, stop) && end != Some(current) && stop != Some(current) && JoinAt(c, current).None?
    ensures Moved(c, current, end, ctx, stop,
                  Done(([Linear(current), IfThenElse(current, t.condition, thenBranch, elseBranch)], None)))
  {
    hide Structurable, RegionOk, Walked, Complete;
    WalkBegins(c, current, end, ctx, stop);
    WalkLeaves(c, current, current, t, end, ctx, stop, [], thenBranch, elseBranch);
    var more := [Linear(current), IfThenElse(current, t.condition, thenBranch, elseBranch)];
    assert [] + more == more;
  }

  lemma ShapeBounds(c: Cfg, l: NaturalLoop, shape: LoopShape)
    requires Indexed(c) && ValidShape(c, l, shape)
    ensures shape.effectiveHeader < |c.blocks| && shape.bodyEntry < |c.blocks| && shape.exitDest < |c.blocks|
  {
  }

  /** A covered loop has its header as effective header, no exit edge inside the
      body, and a covered body. */
  lemma CoveredLoop(c: Cfg, i: nat, shape: LoopShape, end: Option<BlockId>, ctx: Option<LoopCtx>, stop: Option<BlockId>)
    requires Indexed(c) && i < |c.loops| && Covered(c, c.loops[i].header, end, ctx, stop)
    requires end != Some(c.loops[i].header) && stop != Some(c.loops[i].header)
    requires ValidShape(c, c.loops[i], shape)
    requires DecidesExit(c, c.loops[i]) ==> shape.effectiveHeader == c.loops[i].header
    ensures shape.effectiveHeader == c.loops[i].header
    ensures forall e :: e in shape.exitEdges ==> e.0 == c.loops[i].header
    ensures Covered(c, shape.bodyEntry, None, Some(LoopCtx(c.loops[i].header, shape.exitDest, None)), Some(c.loops[i].header))
  {
    var h := c.loops[i].header;
    NoInnerExits(c, c.loops[i], shape, i);
    assert IsLoop(c.callerSucc, Roots(c), c.loops[i]);
    LoopBodyOk(c, h, c.loops[i], shape, end, ctx, stop);
  }

  lemma MoveLoop(c: Cfg, i: nat, shape: LoopShape, end: Option<BlockId>, ctx: Option<LoopCtx>, stop: Option<BlockId>, body: seq<StructureNode>)
    requires Indexed(c) && i < |c.loops| && Covered(c, c.loops[i].header, end, ctx, stop)
    requires end != Some(c.loops[i].header) && stop != Some(c.loops[i].header)
    requires ValidShape(c, c.loops[i], shape) && shape.effectiveHeader == c.loops[i].header
    requires Complete(c, shape.bodyEntry, None, Some(LoopCtx(c.loops[i].header, shape.exitDest, None)), body)
    ensures var h := c.loops[i].header;
            Moved(c, h, end, ctx, stop,
                  Done(([Loop(h, [Linear(h)], shape.condition, None, body)] + LinearNodes(shape.exitPrefix), Some(shape.exitDest))))
  {
    assert IsLoop(c.callerSucc, Roots(c), c.loops[i]);
    LoopSimulated(c, c.loops[i].header, c.loops[i], shape, end, ctx, stop, body);
  }

  // ── Fuel ─────────────────────────────────────────────────────────────────

  lemma PoisedFuel(c: Cfg, b: BlockId, end: Option<BlockId>, ctx: Option<LoopCtx>, stop: Option<BlockId>, fuel: nat)
    requires Poised(c, b, end, ctx, stop, fuel)
    ensures Covered(c, b, end, ctx, stop) && fuel > |c.blocks|
  {
    RankBound(c, b);
  }

  lemma ReadyTurns(c: Cfg, b: BlockId, end: Option<BlockId>, ctx: Option<LoopCtx>, stop: Option<BlockId>, fuel: nat)
    requires Ready(c, b, end, ctx, stop, fuel)
    ensures fuel > 0 && Covered(c, b, end, ctx, stop)
    ensures end != Some(b) && stop != Some(b) ==> Poised(c, b, end, ctx, stop, fuel - 1)
  {
  }

  /** Where a turn leads there is fuel left for the region from there on. */
  lemma OnwardReady(c: Cfg, u: BlockId, v: BlockId, end: Option<BlockId>, ctx: Option<LoopCtx>, stop: Option<BlockId>,
                    vEnd: Option<BlockId>, vCtx: Option<LoopCtx>, vStop: Option<BlockId>, fuel: nat)
    requires Poised(c, u, end, ctx, stop, fuel) && Onward(c, u, v, vCtx, vStop) && Covered(c, v, vEnd, vCtx, vStop)
    ensures fuel > 0 && Ready(c, v, vEnd, vCtx, vStop, fuel - 1)
  {
    PoisedFuel(c, u, end, ctx, stop, fuel);
    RankBound(c, v);
  }

  lemma AdvancedDone(c: Cfg, u: BlockId, ctx: Option<LoopCtx>, stop: Option<BlockId>, r: Outcome<(seq<StructureNode>, Option<BlockId>)>)
    requires Advanced(c, u, ctx, stop, r)
    ensures r.Done?
  {
  }

  lemma AdvancedReady(c: Cfg, u: BlockId, end: Option<BlockId>, ctx: Option<LoopCtx>, stop: Option<BlockId>, fuel: nat,
                      r: Outcome<(seq<StructureNode>, Option<BlockId>)>)
    requires Poised(c, u, end, ctx, stop, fuel) && Advanced(c, u, ctx, stop, r)
    requires r.value.1.Some? ==> Covered(c, r.value.1.value, end, ctx, stop)
    ensures r.Done?
    ensures r.value.1.Some? ==> Ready(c, r.value.1.value, end, ctx, stop, fuel)
  {
    if r.value.1.Some? {
      OnwardReady(c, u, r.value.1.value, end, ctx, stop, end, ctx, stop, fuel);
    }
  }

  /** The turns at a block that is no header lead on along an edge. */
  lemma TurnAdvances(c: Cfg, u: BlockId, v: BlockId, end: Option<BlockId>, ctx: Option<LoopCtx>, stop: Option<BlockId>, fuel: nat,
                     nodes: seq<StructureNode>)
    requires Poised(c, u, end, ctx, stop, fuel) && !HeaderOf(c, u) && Edge(c.callerSucc, u, v)
    ensures Advanced(c, u, ctx, stop, Done((nodes, Some(v))))
  {
    hide Structurable, RegionOk, Innermost;
    StepOnward(c, u, v, end, ctx, stop);
  }

  lemma TurnEnds(c: Cfg, u: BlockId, ctx: Option<LoopCtx>, stop: Option<BlockId>, nodes: seq<StructureNode>)
    ensures Advanced(c, u, ctx, stop, Done((nodes, None)))
  {
  }

  lemma JoinAdvances(c: Cfg, u: BlockId, j: BlockId, end: Option<BlockId>, ctx: Option<LoopCtx>, stop: Option<BlockId>, fuel: nat,
                     nodes: seq<StructureNode>)
    requires Poised(c, u, end, ctx, stop, fuel) && !HeaderOf(c, u)
    requires u < |c.blocks| && c.blocks[u].terminator.JumpIf? && JoinAt(c, u) == Some(j)
    ensures Advanced(c, u, ctx, stop, Done((nodes, Some(j))))
  {
    hide Structurable, RegionOk, Innermost;
    JoinOnward(c, u, j, end, ctx, stop);
  }

  /** Both arms of a jump can be walked with one unit less. */
  lemma ArmsReady(c: Cfg, u: BlockId, t: Terminator, end: Option<BlockId>, ctx: Option<LoopCtx>, stop: Option<BlockId>,
                  armEnd: Option<BlockId>, fuel: nat)
    requires Poised(c, u, end, ctx, stop, fuel) && !HeaderOf(c, u)
    requires u < |c.blocks| && c.blocks[u].terminator == t && t.JumpIf?
    requires Covered(c, t.thenBlock, armEnd, ctx, stop) && Covered(c, t.elseBlock, armEnd, ctx, stop)
    ensures fuel > 0
    ensures Ready(c, t.thenBlock, armEnd, ctx, stop, fuel - 1) && Ready(c, t.elseBlock, armEnd, ctx, stop, fuel - 1)
  {
    hide RegionOk, Innermost, ValidCfg, HeaderExitLoops;
    BothArms(c, u);
    StepOnward(c, u, t.thenBlock, end, ctx, stop);
    StepOnward(c, u, t.elseBlock, end, ctx, stop);
    OnwardReady(c, u, t.thenBlock, end, ctx, stop, armEnd, ctx, stop, fuel);
    OnwardReady(c, u, t.elseBlock, end, ctx, stop, armEnd, ctx, stop, fuel);
  }

  lemma ArmEdges(c: Cfg, u: BlockId)
    requires ValidCfg(c) && u < |c.blocks|
    ensures var t := c.blocks[u].terminator;
            && ((t.Jump? || t.Fallthrough?) ==> Edge(c.callerSucc, u, t.target))
            && (t.JumpIf? ==> Edge(c.callerSucc, u, t.thenBlock) && Edge(c.callerSucc, u, t.elseBlock))
            && (t.Call? && t.callee !in ProgramOf(c).diverging ==> Edge(c.callerSucc, u, t.continuation))
  {
    CallerOf(c, u);
    var t := c.blocks[u].terminator;
    if t.JumpIf? {
      BothArms(c, u);
    }
    if t.Call? && t.callee in NonReturning(c.blocks) {
      NonReturningDiverges(c, u);
    }
  }

  /** The loop at a header is classified, its body can be walked, and the walk
      goes on behind it. */
  lemma LoopReady(c: Cfg, i: nat, end: Option<BlockId>, ctx: Option<LoopCtx>, stop: Option<BlockId>, fuel: nat)
    requires Indexed(c) && i < |c.loops| && Poised(c, c.loops[i].header, end, ctx, stop, fuel)
    ensures fuel > 0 && LeavesOnce(c, c.loops[i], fuel)
  {
    hide RegionOk, Innermost, ValidCfg, HeaderExitLoops;
    PoisedFuel(c, c.loops[i].header, end, ctx, stop, fuel);
    CoveredReached(c, c.loops[i].header, end, ctx, stop);
    LoopLeavesOnce(c, i, fuel);
  }

  lemma CoveredReached(c: Cfg, b: BlockId, end: Option<BlockId>, ctx: Option<LoopCtx>, stop: Option<BlockId>)
    requires Covered(c, b, end, ctx, stop)
    ensures Structurable(c) && ValidCfg(c) && Reached(c, b)
  {
  }

  lemma BodyReady(c: Cfg, i: nat, shape: LoopShape, end: Option<BlockId>, ctx: Option<LoopCtx>, stop: Option<BlockId>, fuel: nat)
    requires Indexed(c) && i < |c.loops| && Poised(c, c.loops[i].header, end, ctx, stop, fuel)
    requires ValidShape(c, c.loops[i], shape) && shape.effectiveHeader == c.loops[i].header
    requires Covered(c, shape.bodyEntry, None, Some(LoopCtx(c.loops[i].header, shape.exitDest, None)), Some(c.loops[i].header))
    ensures fuel > 0
    ensures Ready(c, shape.bodyEntry, None, Some(LoopCtx(c.loops[i].header, shape.exitDest, None)), Some(c.loops[i].header), fuel - 1)
  {
    hide RegionOk, Innermost, HeaderExitLoops, DecidesExit;
    var h := c.loops[i].header;
    CoveredReached(c, h, end, ctx, stop);
    HeaderIsJumpIf(c, h);
    var k := LoopAt(c, h);
    InBody(c, i, shape.bodyEntry);
    ArmEdges(c, h);
    BodyOnward(c, h, shape.bodyEntry, shape.exitDest);
    OnwardReady(c, h, shape.bodyEntry, end, ctx, stop, None, Some(LoopCtx(h, shape.exitDest, None)), Some(h), fuel);
  }

  lemma InBody(c: Cfg, i: nat, b: BlockId)
    requires ValidCfg(c) && i < |c.loops| && b < |c.blocks|
    ensures b in c.loops[i].body <==> BodyOf(c, c.loops[i].header, b)
  {
    Sizes(c);
    assert IsLoop(c.callerSucc, Roots(c), c.loops[i]);
  }

  lemma LoopAdvances(c: Cfg, i: nat, shape: LoopShape, end: Option<BlockId>, ctx: Option<LoopCtx>, stop: Option<BlockId>, fuel: nat,
                     nodes: seq<StructureNode>)
    requires Indexed(c) && i < |c.loops| && Poised(c, c.loops[i].header, end, ctx, stop, fuel)
    requires ValidShape(c, c.loops[i], shape) && shape.effectiveHeader == c.loops[i].header
    ensures Advanced(c, c.loops[i].header, ctx, stop, Done((nodes, Some(shape.exitDest))))
  {
    hide RegionOk, Innermost, HeaderExitLoops;
    var l := c.loops[i];
    var h := l.header;
    CoveredReached(c, h, end, ctx, stop);
    HeaderIsJumpIf(c, h);
    var k := LoopAt(c, h);
    assert l == c.loops[k];
    ArmEdges(c, h);
    var arm := ExitArm(c, l);
    CallerOf(c, h);
    InBody(c, i, arm);
    ExitOnward(c, h, arm, shape.exitPrefix, shape.exitDest, end, ctx, stop);
  }

  // ── Bodies that break at their tail ──────────────────────────────────────

  ghost predicate TailTrack(c: Cfg, entry: BlockId, current: BlockId, end: Option<BlockId>, ctx: Option<LoopCtx>, stop: Option<BlockId>,
                            inner: set<BlockId>, nodes: seq<StructureNode>) {
    InTail(c, current, end, ctx, stop, inner) && Steps(c, FrameOf(ctx.value, inner), entry, current, nodes)
  }

  lemma TailBegins(c: Cfg, entry: BlockId, end: Option<BlockId>, ctx: Option<LoopCtx>, stop: Option<BlockId>, inner: set<BlockId>)
    requires InTail(c, entry, end, ctx, stop, inner)
    ensures TailTrack(c, entry, entry, end, ctx, stop, inner, [])
  {
    StepsBegin(c, FrameOf(ctx.value, inner), entry);
  }

  lemma TailContext(c: Cfg, b: BlockId, end: Option<BlockId>, ctx: Option<LoopCtx>, stop: Option<BlockId>, inner: set<BlockId>)
    requires InTail(c, b, end, ctx, stop, inner)
    ensures ctx.Some? && ctx.value.escapeFlag.Some? && stop == Some(ctx.value.header)
  {
  }

  lemma TailOutOfFuel(c: Cfg, entry: BlockId, current: BlockId, end: Option<BlockId>, ctx: Option<LoopCtx>, stop: Option<BlockId>,
                      inner: set<BlockId>)
    requires InTail(c, current, end, ctx, stop, inner)
    ensures TailDone(c, entry, ctx, inner, OutOfFuel) && TailMoved(c, entry, ctx, inner, OutOfFuel)
  {
  }

  /** Where the walk meets the exit it breaks. */
  lemma TailBreaksOut(c: Cfg, entry: BlockId, current: BlockId, end: Option<BlockId>, ctx: Option<LoopCtx>, stop: Option<BlockId>,
                      inner: set<BlockId>, nodes: seq<StructureNode>)
    requires TailTrack(c, entry, current, end, ctx, stop, inner, nodes) && ctx.Some? && current == ctx.value.exitDest
    ensures ctx.value.escapeFlag.Some?
    ensures TailDone(c, entry, ctx, inner, Done(nodes + [SetEscapeFlag(ctx.value.escapeFlag.value)]))
  {
    StepsBreak(c, FrameOf(ctx.value, inner), entry, nodes);
  }

  lemma TailStops(c: Cfg, entry: BlockId, current: BlockId, end: Option<BlockId>, ctx: Option<LoopCtx>, stop: Option<BlockId>,
                  inner: set<BlockId>, nodes: seq<StructureNode>)
    requires TailTrack(c, entry, current, end, ctx, stop, inner, nodes) && !(ctx.Some? && current == ctx.value.exitDest)
    requires end == Some(current) || stop == Some(current)
    ensures TailDone(c, entry, ctx, inner, Done(nodes))
  {
    hide Steps, TailBody;
  }

  lemma TailInside(c: Cfg, entry: BlockId, current: BlockId, end: Option<BlockId>, ctx: Option<LoopCtx>, stop: Option<BlockId>,
                   inner: set<BlockId>, nodes: seq<StructureNode>)
    requires TailTrack(c, entry, current, end, ctx, stop, inner, nodes) && !(ctx.Some? && current == ctx.value.exitDest)
    requires end != Some(current) && stop != Some(current)
    ensures InTail(c, current, end, ctx, stop, inner) && current in inner
  {
    hide Steps, TailBody;
  }

  lemma TailFails<T>(c: Cfg, entry: BlockId, current: BlockId, ctx: Option<LoopCtx>, inner: set<BlockId>, r: Outcome<T>)
    requires ctx.Some? && ctx.value.escapeFlag.Some? && r.OutOfFuel?
    ensures TailDone(c, entry, ctx, inner, Fail(r)) && TailMoved(c, entry, ctx, inner, Fail(r))
  {
  }

  lemma TailGoesOn(c: Cfg, entry: BlockId, current: BlockId, end: Option<BlockId>, ctx: Option<LoopCtx>, stop: Option<BlockId>,
                   inner: set<BlockId>, nodes: seq<StructureNode>, r: Outcome<(seq<StructureNode>, Option<BlockId>)>)
    requires TailTrack(c, entry, current, end, ctx, stop, inner, nodes) && current in inner
    requires TailMoved(c, current, ctx, inner, r) && r.Done?
    ensures r.value.1.Some? ==> TailTrack(c, entry, r.value.1.value, end, ctx, stop, inner, nodes + r.value.0)
    ensures r.value.1.None? ==> TailDone(c, entry, ctx, inner, Done(nodes + r.value.0))
  {
    var f := FrameOf(ctx.value, inner);
    var next := if r.value.1.Some? then r.value.1.value else f.header;
    StepsOn(c, f, entry, current, next, nodes, r.value.0);
    assert next in f.inner + {f.header, f.exit};
    hide Steps, TailBody;
  }

  lemma TailMovedIs(c: Cfg, b: BlockId, ctx: Option<LoopCtx>, inner: set<BlockId>, r: Outcome<(seq<StructureNode>, Option<BlockId>)>)
    requires TailMoved(c, b, ctx, inner, r)
    ensures ctx.Some? && ctx.value.escapeFlag.Some? && (r.Done? || r.OutOfFuel?)
  {
  }

  lemma TailDoneIs(c: Cfg, b: BlockId, ctx: Option<LoopCtx>, inner: set<BlockId>, r: Outcome<seq<StructureNode>>)
    requires TailDone(c, b, ctx, inner, r)
    ensures ctx.Some? && ctx.value.escapeFlag.Some? && (r.Done? || r.OutOfFuel?)
  {
  }

  /** Inside such a body no block heads a loop, ends the body or cannot be
      reached. */
  lemma TailBlock(c: Cfg, b: BlockId, end: Option<BlockId>, ctx: Option<LoopCtx>, stop: Option<BlockId>, inner: set<BlockId>)
    requires InTail(c, b, end, ctx, stop, inner) && b in inner
    ensures b < |c.blocks| && !HeaderOf(c, b) && ValidCfg(c)
    ensures var t := c.blocks[b].terminator;
            && (t.Jump? || t.Fallthrough? || t.Call? || t.JumpIf?)
            && (t.Call? ==> t.callee !in ProgramOf(c).diverging)
            && (t.JumpIf? && !Asserts(c, b, t) ==> JoinAt(c, b) == Some(ctx.value.header) || JoinAt(c, b) == Some(ctx.value.exitDest))
  {
    hide ValidCfg;
    assert Plain(c, ctx.value.header, ctx.value.exitDest, b);
  }

  lemma TailJump(c: Cfg, b: BlockId, v: BlockId, end: Option<BlockId>, ctx: Option<LoopCtx>, stop: Option<BlockId>, inner: set<BlockId>)
    requires InTail(c, b, end, ctx, stop, inner) && b in inner && b < |c.blocks|
    requires c.blocks[b].terminator == Jump(v) || c.blocks[b].terminator == Fallthrough(v)
    ensures TailMoved(c, b, ctx, inner, Done(([Linear(b)], Some(v))))
  {
    hide TailBody, Steps;
    StepJump(c, FrameOf(ctx.value, inner), b, v);
  }

  lemma TailCall(c: Cfg, b: BlockId, callee: BlockId, v: BlockId, end: Option<BlockId>, ctx: Option<LoopCtx>, stop: Option<BlockId>,
                 inner: set<BlockId>)
    requires InTail(c, b, end, ctx, stop, inner) && b in inner && b < |c.blocks| && c.blocks[b].terminator == Call(callee, v)
    ensures TailMoved(c, b, ctx, inner, Done(([Linear(b), CallNode(callee)], Some(v))))
  {
    hide TailBody, Steps;
    StepCall(c, FrameOf(ctx.value, inner), b, callee, v);
  }

  lemma TailAssert(c: Cfg, b: BlockId, t: Terminator, end: Option<BlockId>, ctx: Option<LoopCtx>, stop: Option<BlockId>, inner: set<BlockId>)
    requires InTail(c, b, end, ctx, stop, inner) && b in inner && b < |c.blocks| && c.blocks[b].terminator == t && t.JumpIf?
    requires t.thenBlock !in c.divergentBlocks && t.elseBlock in c.divergentBlocks
    ensures TailMoved(c, b, ctx, inner, Done(([Linear(b), BoolAssert(b, t.condition)], Some(t.thenBlock))))
  {
    hide TailBody, Steps;
    StepAssert(c, FrameOf(ctx.value, inner), b, t);
  }

  /** Both arms of a test are walked in the same body. */
  lemma TailArms(c: Cfg, b: BlockId, t: Terminator, join: BlockId, end: Option<BlockId>, ctx: Option<LoopCtx>, stop: Option<BlockId>,
                 inner: set<BlockId>)
    requires InTail(c, b, end, ctx, stop, inner) && b in inner && b < |c.blocks| && c.blocks[b].terminator == t && t.JumpIf?
    requires !Asserts(c, b, t) && JoinAt(c, b) == Some(join)
    ensures stop == Some(ctx.value.header) && (join == ctx.value.header || join == ctx.value.exitDest)
    ensures InTail(c, t.thenBlock, Some(join), ctx, stop, inner) && InTail(c, t.elseBlock, Some(join), ctx, stop, inner)
  {
    TailBlock(c, b, end, ctx, stop, inner);
    assert Plain(c, ctx.value.header, ctx.value.exitDest, b);
    ArmsInside(c, FrameOf(ctx.value, inner), b, t);
    hide TailBody;
  }

  /** What the arms make of the test. */
  ghost predicate TailJoined(c: Cfg, b: BlockId, ctx: Option<LoopCtx>, inner: set<BlockId>, join: BlockId,
                             r: Outcome<(seq<StructureNode>, Option<BlockId>)>) {
    && ctx.Some? && ctx.value.escapeFlag.Some? && (r.Done? || r.OutOfFuel?)
    && (join == ctx.value.header || join == ctx.value.exitDest)
    && (r.Done? ==> r.value.1 == Some(join) && Steps(c, FrameOf(ctx.value, inner), b, ctx.value.header, r.value.0))
  }

  lemma TailIf(c: Cfg, b: BlockId, t: Terminator, join: BlockId, end: Option<BlockId>, ctx: Option<LoopCtx>, stop: Option<BlockId>,
               inner: set<BlockId>, thenBranch: seq<StructureNode>, elseBranch: seq<StructureNode>)
    requires InTail(c, b, end, ctx, stop, inner) && b in inner && b < |c.blocks| && c.blocks[b].terminator == t && t.JumpIf?
    requires join == ctx.value.header || join == ctx.value.exitDest
    requires TailDone(c, t.thenBlock, ctx, inner, Done(thenBranch)) && TailDone(c, t.elseBlock, ctx, inner, Done(elseBranch))
    ensures TailJoined(c, b, ctx, inner, join, Done(([Linear(b), IfThenElse(b, t.condition, thenBranch, elseBranch)], Some(join))))
  {
    hide TailBody, Steps;
    StepIf(c, FrameOf(ctx.value, inner), b, t, thenBranch, elseBranch);
  }

  lemma TailJoinFails<T>(c: Cfg, b: BlockId, ctx: Option<LoopCtx>, inner: set<BlockId>, join: BlockId, r: Outcome<T>)
    requires ctx.Some? && ctx.value.escapeFlag.Some? && r.OutOfFuel? && (join == ctx.value.header || join == ctx.value.exitDest)
    ensures TailJoined(c, b, ctx, inner, join, Fail(r)) && TailJoined(c, b, ctx, inner, join, OutOfFuel)
  {
  }

  /** A test that joins at the exit ends the body, one that joins at the header
      leads there. */
  lemma TailJoins(c: Cfg, b: BlockId, ctx: Option<LoopCtx>, inner: set<BlockId>, join: BlockId, r: Outcome<(seq<StructureNode>, Option<BlockId>)>)
    requires TailJoined(c, b, ctx, inner, join, r)
    ensures r.Done? || r.OutOfFuel?
    ensures r.OutOfFuel? ==> TailMoved(c, b, ctx, inner, Fail(r))
    ensures r.Done? ==> ctx.Some? && ctx.value.escapeFlag.Some? && r.value.1 == Some(join)
    ensures r.Done? && join == ctx.value.exitDest ==> TailMoved(c, b, ctx, inner, Done((r.value.0, None)))
    ensures r.Done? && join != ctx.value.exitDest ==> TailMoved(c, b, ctx, inner, r)
  {
    hide Steps;
  }

  // ── Loops that break at their tail ───────────────────────────────────────

  /** Some exit edge starts in the body, the header decides for itself, and every
      test of the body leads back to the header or out. */
  ghost predicate BreaksAtTail(c: Cfg, l: NaturalLoop, s: LoopShape) {
    && ValidCfg(c) && s.effectiveHeader == l.header && (exists e :: e in s.exitEdges && e.0 != l.header)
    && TailTests(c, s.bodyEntry, l.header, s.exitDest)
  }

  /** Some exit edge starts neither at the header nor at the effective header. */
  ghost predicate ExitsInside(s: LoopShape, header: BlockId, n: nat)
    requires n <= |s.exitEdges|
  {
    exists k :: 0 <= k < n && s.exitEdges[k].0 != header && s.exitEdges[k].0 != s.effectiveHeader
  }

  /** The loop node has a flag exactly if an exit starts inside the body. */
  ghost predicate FlaggedIfNeeded(s: LoopShape, header: BlockId, nodes: seq<StructureNode>) {
    nodes != [] && nodes[0].Loop? && (nodes[0].escapeFlag.Some? <==> ExitsInside(s, header, |s.exitEdges|))
  }

  ghost function TailFrame(c: Cfg, l: NaturalLoop, s: LoopShape, slot: nat): Frame {
    Frame(l.header, InnerOf(c, s.bodyEntry, l.header, s.exitDest), s.exitDest, slot)
  }

  /** The loop is accepted, unless the fuel ends; its node agrees with the graph
      on exactly the outcomes on which the graph does not break. */
  ghost predicate BuildsTail(c: Cfg, l: NaturalLoop, s: LoopShape, slot: nat, r: Outcome<(seq<StructureNode>, Option<BlockId>)>) {
    && (r.Done? || r.OutOfFuel?)
    && (r.Done? ==> r.value.1 == Some(s.exitDest) && exists body :: BuiltTail(c, l, s, slot, r.value.0, body))
  }

  ghost predicate BuiltTail(c: Cfg, l: NaturalLoop, s: LoopShape, slot: nat, nodes: seq<StructureNode>, body: seq<StructureNode>) {
    var f, g := TailFrame(c, l, s, slot), ProgramOf(c);
    && nodes == [BreakableLoop(f, s.condition, body)] + LinearNodes(s.exitPrefix)
    && EntersBody(g, f, s.condition, s.bodyEntry) && LoopAgrees(g, f, s.condition, body)
  }

  lemma TailShape(c: Cfg, i: nat, s: LoopShape, slot: nat)
    requires Indexed(c) && i < |c.loops| && ValidShape(c, c.loops[i], s) && BreaksAtTail(c, c.loops[i], s)
    ensures s.effectiveHeader == c.loops[i].header && exists k :: 0 <= k < |s.exitEdges| && s.exitEdges[k].0 != c.loops[i].header
    ensures EntersBody(ProgramOf(c), TailFrame(c, c.loops[i], s, slot), s.condition, s.bodyEntry)
  {
    HeaderInBody(c, i);
    hide ValidCfg, Indexed, ValidShape, TailTests, InnerOf, EntersBody;
    ShapeEntersBody(c, c.loops[i], s, slot);
  }

  lemma HeaderInBody(c: Cfg, i: nat)
    requires ValidCfg(c) && i < |c.loops|
    ensures c.loops[i].header in c.loops[i].body
  {
    Sizes(c);
    assert IsLoop(c.callerSucc, Roots(c), c.loops[i]);
  }

  lemma TailEnters(c: Cfg, l: NaturalLoop, s: LoopShape, ctx: LoopCtx)
    requires Indexed(c) && ValidShape(c, l, s) && BreaksAtTail(c, l, s) && ctx.escapeFlag.Some?
    requires ctx.header == l.header && ctx.exitDest == s.exitDest
    ensures InTail(c, s.bodyEntry, None, Some(ctx), Some(l.header), InnerOf(c, s.bodyEntry, l.header, s.exitDest))
  {
    TailBodyOf(c, s.bodyEntry, l.header, s.exitDest, ctx.escapeFlag.value);
  }

  lemma TailUnbuilt(c: Cfg, l: NaturalLoop, s: LoopShape, slot: nat, r: Outcome<seq<StructureNode>>)
    requires r.OutOfFuel?
    ensures BuildsTail(c, l, s, slot, Fail(r))
  {
  }

  /** The breaks of the body stand at its tail. */
  lemma TailAccepted(c: Cfg, l: NaturalLoop, s: LoopShape, ctx: LoopCtx, body: seq<StructureNode>)
    requires ctx.escapeFlag.Some? && ctx.header == l.header
    requires TailDone(c, s.bodyEntry, Some(ctx), InnerOf(c, s.bodyEntry, l.header, s.exitDest), Done(body))
    ensures FlagsAtTail(body, true)
  {
  }

  lemma TailBuilt(c: Cfg, i: nat, s: LoopShape, slot: nat, ctx: LoopCtx, body: seq<StructureNode>, nodes: seq<StructureNode>)
    requires i < |c.loops| && ctx == LoopCtx(c.loops[i].header, s.exitDest, Some(slot))
    requires TailDone(c, s.bodyEntry, Some(ctx), InnerOf(c, s.bodyEntry, c.loops[i].header, s.exitDest), Done(body))
    requires EntersBody(ProgramOf(c), TailFrame(c, c.loops[i], s, slot), s.condition, s.bodyEntry)
    requires nodes == [Loop(c.loops[i].header, [Linear(c.loops[i].header)], s.condition, Some(slot), body)] + LinearNodes(s.exitPrefix)
    ensures BuildsTail(c, c.loops[i], s, slot, Done((nodes, Some(s.exitDest))))
  {
    var f := TailFrame(c, c.loops[i], s, slot);
    hide EntersBody, LoopAgrees, InnerOf;
    IteratingLoopAgrees(ProgramOf(c), f, s.condition, body, s.bodyEntry);
    assert BuiltTail(c, c.loops[i], s, slot, nodes, body);
  }

  /** The flag a break inside the loop `ctx` sets. */
  function FlagOf(ctx: Option<LoopCtx>): Option<nat> {
    if ctx.Some? then ctx.value.escapeFlag else None
  }

  class State {
    const cfg: Cfg
    const loopIndexByHeader: map<BlockId, nat>
    const procedureIndexByEntry: map<BlockId, nat>
    /** Slots allocated in the body being structured. */
    var escapeFlags: nat

    ghost predicate Valid() {
      && ValidCfg(cfg) && Indexed(cfg)
      && LoopIndex(cfg, loopIndexByHeader) && ProcedureIndex(cfg, procedureIndexByEntry)
    }

    constructor (c: Cfg)
      requires ValidCfg(c)
      ensures Valid() && cfg == c && escapeFlags == 0
    {
      ValidIndexed(c);
      var loops := IndexLoops(c);
      var procedures := IndexProcedures(c);
      cfg := c;
      loopIndexByHeader := loops;
      procedureIndexByEntry := procedures;
      escapeFlags := 0;
    }

    /** Structures one body; slot numbers are local to it. */
    method StructureOneBody(entry: BlockId, fuel: nat) returns (r: Outcome<seq<StructureNode>>, flags: nat)
      requires Valid() && entry < |cfg.blocks|
      modifies this
      ensures r.Done? ==> Flagged(r.value, None, 0, flags)
      ensures Covered(cfg, entry, None, None, None) ==> Faithful(cfg, entry, None, None, r)
      ensures Ready(cfg, entry, None, None, None, fuel) ==> r.Done?
    {
      escapeFlags := 0;
      r := StructureRegion(entry, None, None, None, fuel, {});
      flags := escapeFlags;
    }

    method AllocEscapeFlag() returns (slot: nat)
      modifies this
      ensures slot == old(escapeFlags) && escapeFlags == old(escapeFlags) + 1
    {
      slot := escapeFlags;
      escapeFlags := escapeFlags + 1;
    }

    /** The else arm of a jump that only ever traps and is entered only here. */
    function TryTrapPeephole(block: BlockId): (r: Option<BlockId>)
      requires Valid() && block < |cfg.blocks|
    {
      var t := cfg.blocks[block].terminator;
      if t.JumpIf? && t.elseBlock in cfg.divergentBlocks && t.thenBlock !in cfg.divergentBlocks &&
         t.elseBlock < |cfg.predecessors| && cfg.predecessors[t.elseBlock] == [block]
      then Some(t.thenBlock)
      else None
    }

    /** Walks from `entry` to the join `end`, to a back edge at `stop`, or to the
        leaves. */
    method StructureRegion(entry: BlockId, end: Option<BlockId>, ctx: Option<LoopCtx>, stop: Option<BlockId>, fuel: nat,
                           ghost inner: set<BlockId>)
      returns (r: Outcome<seq<StructureNode>>)
      requires Valid() && entry < |cfg.blocks|
      modifies this
      ensures r.Done? ==> Flagged(r.value, FlagOf(ctx), old(escapeFlags), escapeFlags)
      ensures Covered(cfg, entry, end, ctx, stop) ==> Faithful(cfg, entry, end, ctx, r)
      ensures Ready(cfg, entry, end, ctx, stop, fuel) ==> r.Done?
      ensures InTail(cfg, entry, end, ctx, stop, inner) ==> TailDone(cfg, entry, ctx, inner, r)
      decreases fuel, 0
    {
      hide Flagged, Covered, OnTrack, Moved, Complete, Valid, ValidCfg, Indexed, Ready, Poised, Advanced, InTail, TailDone, TailMoved, TailTrack;
      var nodes: seq<StructureNode>, current: nat, left := [], entry, fuel;
      ghost var good := Covered(cfg, entry, end, ctx, stop);
      ghost var ready := Ready(cfg, entry, end, ctx, stop, fuel);
      if ready {
        ReadyTurns(cfg, entry, end, ctx, stop, fuel);
      }
      if good {
        TrackStart(cfg, entry, end, ctx, stop);
      }
      ghost var tail := InTail(cfg, entry, end, ctx, stop, inner);
      if tail {
        TailBegins(cfg, entry, end, ctx, stop, inner);
      }
      FlaggedNothing(FlagOf(ctx), escapeFlags);
      while true
        invariant current < |cfg.blocks|
        invariant Flagged(nodes, FlagOf(ctx), old(escapeFlags), escapeFlags)
        invariant good ==> OnTrack(cfg, entry, current, end, ctx, stop, nodes)
        invariant ready ==> good && Ready(cfg, current, end, ctx, stop, left)
        invariant tail ==> TailTrack(cfg, entry, current, end, ctx, stop, inner, nodes)
        decreases left
      {
        if ready {
          ReadyTurns(cfg, current, end, ctx, stop, left);
        }
        if left == 0 {
          if tail {
            TailOutOfFuel(cfg, entry, entry, end, ctx, stop, inner);
          }
          return OutOfFuel;
        }
        left := left - 1;
        if ctx.Some? && current == ctx.value.exitDest {
          if good {
            TrackNotAtExit(cfg, entry, current, end, ctx, stop, nodes);
          }
          if tail {
            TailBreaksOut(cfg, entry, current, end, ctx, stop, inner, nodes);
          }
          if ctx.value.escapeFlag.None? {
            return Panicked;
          }
          var exit := SetEscapeFlag(ctx.value.escapeFlag.value);
          FlaggedLeaf(exit, FlagOf(ctx), escapeFlags);
          FlaggedConcat(nodes, [exit], FlagOf(ctx), old(escapeFlags), escapeFlags, escapeFlags);
          return Done(nodes + [exit]);
        }
        if end == Some(current) || stop == Some(current) {
          if good {
            TrackStops(cfg, entry, current, end, ctx, stop, nodes);
          }
          if tail {
            TailStops(cfg, entry, current, end, ctx, stop, inner, nodes);
          }
          return Done(nodes);
        }
        if good {
          TrackCovered(cfg, entry, current, end, ctx, stop, nodes);
        }
        if tail {
          TailInside(cfg, entry, current, end, ctx, stop, inner, nodes);
        }
        ghost var before := escapeFlags;
        var turn := Turn(current, end, ctx, stop, left, inner);
        if ready {
          AdvancedDone(cfg, current, ctx, stop, turn);
        }
        if tail {
          TailMovedIs(cfg, current, ctx, inner, turn);
        }
        if !turn.Done? {
          if good {
            MovedNoPanic(cfg, current, end, ctx, stop, turn);
          }
          if tail {
            TailFails(cfg, entry, current, ctx, inner, turn);
          }
          return Fail(turn);
        }
        if good {
          TrackMoves(cfg, entry, current, end, ctx, stop, nodes, turn);
        }
        if ready {
          if turn.value.1.Some? {
            TrackCovered(cfg, entry, turn.value.1.value, end, ctx, stop, nodes + turn.value.0);
          }
          AdvancedReady(cfg, current, end, ctx, stop, left, turn);
        }
        if tail {
          TailGoesOn(cfg, entry, current, end, ctx, stop, inner, nodes, turn);
        }
        FlaggedConcat(nodes, turn.value.0, FlagOf(ctx), old(escapeFlags), before, escapeFlags);
        nodes := nodes + turn.value.0;
        if turn.value.1.None? {
          return Done(nodes);
        }
        current := turn.value.1.value;
      }
    }

    /** One turn of the walk at a block where it does not stop. */
    method Turn(current: BlockId, end: Option<BlockId>, ctx: Option<LoopCtx>, stop: Option<BlockId>, fuel: nat, ghost inner: set<BlockId>)
      returns (r: Outcome<(seq<StructureNode>, Option<BlockId>)>)
      requires Valid() && current < |cfg.blocks| && end != Some(current) && stop != Some(current)
      modifies this
      ensures r.Done? && r.value.1.Some? ==> r.value.1.value < |cfg.blocks|
      ensures r.Done? ==> Flagged(r.value.0, FlagOf(ctx), old(escapeFlags), escapeFlags)
      ensures Covered(cfg, current, end, ctx, stop) ==> Moved(cfg, current, end, ctx, stop, r)
      ensures Poised(cfg, current, end, ctx, stop, fuel) ==> Advanced(cfg, current, ctx, stop, r)
      ensures InTail(cfg, current, end, ctx, stop, inner) && current in inner ==> TailMoved(cfg, current, ctx, inner, r)
      decreases fuel, 2
    {
      hide Flagged, Covered, Moved, Complete, ValidCfg, Indexed, LoopIndex, ProcedureIndex, Poised, Advanced, InTail, TailMoved, TailTrack;
      ghost var tail := InTail(cfg, current, end, ctx, stop, inner) && current in inner;
      if tail {
        TailBlock(cfg, current, end, ctx, stop, inner);
        NotIndexed(cfg, loopIndexByHeader, current);
      }
      IndexBounds(cfg, loopIndexByHeader);
      if current in loopIndexByHeader && !(ctx.Some? && ctx.value.header == current) {
        r := StructureLoop(loopIndexByHeader[current], current, end, ctx, stop, fuel);
        return;
      }
      if Covered(cfg, current, end, ctx, stop) {
        TurnNotHeader(cfg, loopIndexByHeader, current, end, ctx, stop);
      }
      ghost var poised := Poised(cfg, current, end, ctx, stop, fuel);
      if poised {
        PoisedFuel(cfg, current, end, ctx, stop, fuel);
        ArmEdges(cfg, current);
      }
      TerminatorTargets(cfg, current);
      var t := cfg.blocks[current].terminator;
      var peephole := TryTrapPeephole(current);
      if peephole.Some? {
        if Covered(cfg, current, end, ctx, stop) {
          MoveAssert(cfg, current, t, end, ctx, stop);
        }
        if tail {
          TailAssert(cfg, current, t, end, ctx, stop, inner);
        }
        FlaggedLeaves(Linear(current), BoolAssert(current, t.condition), FlagOf(ctx), escapeFlags);
        if poised {
          TurnAdvances(cfg, current, t.thenBlock, end, ctx, stop, fuel, [Linear(current), BoolAssert(current, t.condition)]);
        }
        return Done(([Linear(current), BoolAssert(current, t.condition)], peephole));
      }
      if t.JumpIf? {
        r := StructureCond(current, t, end, ctx, stop, fuel, inner);
      } else {
        r := StraightTurn(current, t, end, ctx, stop, fuel, inner);
      }
    }

    /** A block that does not branch. */
    method StraightTurn(current: BlockId, t: Terminator, ghost end: Option<BlockId>, ctx: Option<LoopCtx>, ghost stop: Option<BlockId>,
                        ghost fuel: nat, ghost inner: set<BlockId>)
      returns (r: Outcome<(seq<StructureNode>, Option<BlockId>)>)
      requires Valid() && current < |cfg.blocks| && cfg.blocks[current].terminator == t && !t.JumpIf?
      requires end != Some(current) && stop != Some(current)
      ensures r.Done? && r.value.1.Some? ==> r.value.1.value < |cfg.blocks|
      ensures r.Done? ==> Flagged(r.value.0, FlagOf(ctx), escapeFlags, escapeFlags)
      ensures Covered(cfg, current, end, ctx, stop) && !HeaderOf(cfg, current) ==> Moved(cfg, current, end, ctx, stop, r)
      ensures Poised(cfg, current, end, ctx, stop, fuel) && !HeaderOf(cfg, current) ==> Advanced(cfg, current, ctx, stop, r)
      ensures InTail(cfg, current, end, ctx, stop, inner) && current in inner ==> TailMoved(cfg, current, ctx, inner, r)
    {
      hide Flagged, Covered, Moved, Complete, ValidCfg, Indexed, LoopIndex, ProcedureIndex, HeaderOf, Poised, Advanced, InTail, TailMoved;
      ghost var tail := InTail(cfg, current, end, ctx, stop, inner) && current in inner;
      if tail {
        TailBlock(cfg, current, end, ctx, stop, inner);
      }
      TerminatorTargets(cfg, current);
      ghost var poised := Poised(cfg, current, end, ctx, stop, fuel) && !HeaderOf(cfg, current);
      if poised {
        PoisedFuel(cfg, current, end, ctx, stop, fuel);
        ArmEdges(cfg, current);
      }
      match t {
        case Jump(target) =>
          if Covered(cfg, current, end, ctx, stop) {
            MoveJump(cfg, current, target, end, ctx, stop);
          }
          if tail {
            TailJump(cfg, current, target, end, ctx, stop, inner);
          }
          FlaggedLeaf(Linear(current), FlagOf(ctx), escapeFlags);
          if poised {
            TurnAdvances(cfg, current, target, end, ctx, stop, fuel, [Linear(current)]);
          }
          return Done(([Linear(current)], Some(target)));
        case Fallthrough(target) =>
          if Covered(cfg, current, end, ctx, stop) {
            MoveJump(cfg, current, target, end, ctx, stop);
          }
          if tail {
            TailJump(cfg, current, target, end, ctx, stop, inner);
          }
          FlaggedLeaf(Linear(current), FlagOf(ctx), escapeFlags);
          if poised {
            TurnAdvances(cfg, current, target, end, ctx, stop, fuel, [Linear(current)]);
          }
          return Done(([Linear(current)], Some(target)));
        case Call(callee, continuation) =>
          if callee !in procedureIndexByEntry {
            CallIndexed(cfg, procedureIndexByEntry, current);
            return Panicked;
          }
          DivergingIndexed(cfg, procedureIndexByEntry, callee);
          var diverging := cfg.procedures[procedureIndexByEntry[callee]].returnBlock.None?;
          if Covered(cfg, current, end, ctx, stop) {
            MoveCall(cfg, current, callee, continuation, end, ctx, stop);
          }
          if tail {
            TailCall(cfg, current, callee, continuation, end, ctx, stop, inner);
          }
          FlaggedLeaves(Linear(current), CallNode(callee), FlagOf(ctx), escapeFlags);
          if diverging {
            TurnEnds(cfg, current, ctx, stop, [Linear(current), CallNode(callee)]);
          } else if poised {
            TurnAdvances(cfg, current, continuation, end, ctx, stop, fuel, [Linear(current), CallNode(callee)]);
          }
          return Done(([Linear(current), CallNode(callee)], if diverging then None else Some(continuation)));
        case Return =>
          if Covered(cfg, current, end, ctx, stop) {
            MoveReturn(cfg, current, ReturnNode(current), end, ctx, stop);
          }
          FlaggedLeaves(Linear(current), ReturnNode(current), FlagOf(ctx), escapeFlags);
          TurnEnds(cfg, current, ctx, stop, [Linear(current), ReturnNode(current)]);
          return Done(([Linear(current), ReturnNode(current)], None));
        case Stop =>
          if Covered(cfg, current, end, ctx, stop) {
            MoveReturn(cfg, current, StopNode(current), end, ctx, stop);
          }
          FlaggedLeaves(Linear(current), StopNode(current), FlagOf(ctx), escapeFlags);
          TurnEnds(cfg, current, ctx, stop, [Linear(current), StopNode(current)]);
          return Done(([Linear(current), StopNode(current)], None));
        case Trap =>
          if Covered(cfg, current, end, ctx, stop) {
            MoveTrap(cfg, current, end, ctx, stop);
          }
          FlaggedLeaves(Linear(current), TrapNode(current), FlagOf(ctx), escapeFlags);
          TurnEnds(cfg, current, ctx, stop, [Linear(current), TrapNode(current)]);
          return Done(([Linear(current), TrapNode(current)], None));
        case TrapReturn =>
          if Covered(cfg, current, end, ctx, stop) {
            MoveTrap(cfg, current, end, ctx, stop);
          }
          FlaggedLeaves(Linear(current), TrapNode(current), FlagOf(ctx), escapeFlags);
          TurnEnds(cfg, current, ctx, stop, [Linear(current), TrapNode(current)]);
          return Done(([Linear(current), TrapNode(current)], None));
        case Unreachable =>
          if Covered(cfg, current, end, ctx, stop) {
            NotUnreachable(cfg, current, end, ctx, stop);
          }
          return Panicked;
      }
    }

    /** A conditional jump that is neither a loop header nor an assertion. */
    method StructureCond(current: BlockId, t: Terminator, end: Option<BlockId>, ctx: Option<LoopCtx>, stop: Option<BlockId>, fuel: nat,
                         ghost inner: set<BlockId>)
      returns (r: Outcome<(seq<StructureNode>, Option<BlockId>)>)
      requires Valid() && current < |cfg.blocks| && cfg.blocks[current].terminator == t && t.JumpIf?
      requires end != Some(current) && stop != Some(current)
      modifies this
      ensures r.Done? && r.value.1.Some? ==> r.value.1.value < |cfg.blocks|
      ensures r.Done? ==> Flagged(r.value.0, FlagOf(ctx), old(escapeFlags), escapeFlags)
      ensures Covered(cfg, current, end, ctx, stop) && !HeaderOf(cfg, current) ==> Moved(cfg, current, end, ctx, stop, r)
      ensures Poised(cfg, current, end, ctx, stop, fuel) && !HeaderOf(cfg, current) ==> Advanced(cfg, current, ctx, stop, r)
      ensures InTail(cfg, current, end, ctx, stop, inner) && current in inner && !Asserts(cfg, current, t) ==> TailMoved(cfg, current, ctx, inner, r)
      decreases fuel, 1
    {
      hide Flagged, Covered, Moved, Complete, ValidCfg, Indexed, LoopIndex, ProcedureIndex, HeaderOf, Poised, Ready, Advanced, InTail, TailMoved, TailJoined, Asserts;
      ghost var tail := InTail(cfg, current, end, ctx, stop, inner) && current in inner && !Asserts(cfg, current, t);
      if tail {
        TailBlock(cfg, current, end, ctx, stop, inner);
      }
      var join := PostIdom(current);
      var cond;
      if join.Some? {
        cond := StructureJoiningCond(current, t, join.value, ctx, end, stop, fuel, inner);
      } else {
        cond := StructureDivergingCond(current, t, ctx, end, stop, fuel);
      }
      if tail {
        TailJoins(cfg, current, ctx, inner, join.value, cond);
      }
      if Poised(cfg, current, end, ctx, stop, fuel) && !HeaderOf(cfg, current) {
        AdvancedDone(cfg, current, ctx, stop, cond);
      }
      if !cond.Done? {
        return Fail(cond);
      }
      if cond.value.1.Some? && ctx.Some? && ctx.value.escapeFlag.Some? && cond.value.1.value == ctx.value.exitDest {
        if Covered(cfg, current, end, ctx, stop) {
          CoveredNoFlag(cfg, current, end, ctx, stop);
        }
        TurnEnds(cfg, current, ctx, stop, cond.value.0);
        return Done((cond.value.0, None));
      }
      return cond;
    }

    function PostIdom(b: BlockId): (r: Option<BlockId>)
      requires Valid() && b < |cfg.blocks|
      ensures r == JoinAt(cfg, b) && (r.Some? ==> r.value < |cfg.blocks|)
    {
      cfg.postDominators.idom[b]
    }

    /** Both arms are walked up to the join, where the region goes on. */
    method StructureJoiningCond(current: BlockId, t: Terminator, join: BlockId, ctx: Option<LoopCtx>,
                                ghost end: Option<BlockId>, ghost stop: Option<BlockId>, fuel: nat, ghost inner: set<BlockId>)
      returns (r: Outcome<(seq<StructureNode>, Option<BlockId>)>)
      requires Valid() && current < |cfg.blocks| && cfg.blocks[current].terminator == t && t.JumpIf?
      requires JoinAt(cfg, current) == Some(join) && join < |cfg.blocks|
      requires end != Some(current) && stop != Some(current)
      modifies this
      ensures r.Done? && r.value.1.Some? ==> r.value.1.value < |cfg.blocks|
      ensures r.Done? ==> Flagged(r.value.0, FlagOf(ctx), old(escapeFlags), escapeFlags)
      ensures Covered(cfg, current, end, ctx, stop) && !HeaderOf(cfg, current) ==> Moved(cfg, current, end, ctx, stop, r)
      ensures Poised(cfg, current, end, ctx, stop, fuel) && !HeaderOf(cfg, current) ==> Advanced(cfg, current, ctx, stop, r)
      ensures InTail(cfg, current, end, ctx, stop, inner) && current in inner && !Asserts(cfg, current, t) ==>
                TailJoined(cfg, current, ctx, inner, join, r)
      decreases fuel, 0
    {
      hide Flagged, Covered, Moved, Complete, ValidCfg, Indexed, LoopIndex, ProcedureIndex, HeaderOf, Poised, Ready, Advanced, InTail, TailDone, TailJoined, Asserts;
      ghost var tail := InTail(cfg, current, end, ctx, stop, inner) && current in inner && !Asserts(cfg, current, t);
      if tail {
        TailArms(cfg, current, t, join, end, ctx, stop, inner);
        TailContext(cfg, current, end, ctx, stop, inner);
      }
      ghost var poised := Poised(cfg, current, end, ctx, stop, fuel) && !HeaderOf(cfg, current);
      if poised {
        PoisedFuel(cfg, current, end, ctx, stop, fuel);
      }
      if fuel == 0 {
        OutOfFuelMoves(cfg, current, end, ctx, stop);
        if tail {
          TailJoinFails<()>(cfg, current, ctx, inner, join, OutOfFuel);
        }
        return OutOfFuel;
      }
      TerminatorTargets(cfg, current);
      var backEdgeStop := if ctx.Some? then Some(ctx.value.header) else None;
      ghost var good := Covered(cfg, current, end, ctx, stop) && !HeaderOf(cfg, current);
      if good {
        JoinArmsCovered(cfg, current, t, join, end, ctx, stop);
      }
      if poised {
        ArmsReady(cfg, current, t, end, ctx, stop, Some(join), fuel);
      }
      var thenBranch := StructureRegion(t.thenBlock, Some(join), ctx, backEdgeStop, fuel - 1, inner);
      if tail {
        TailDoneIs(cfg, t.thenBlock, ctx, inner, thenBranch);
      }
      if !thenBranch.Done? {
        if good {
          ArmFails(cfg, current, end, ctx, stop, thenBranch);
        }
        if tail {
          TailJoinFails(cfg, current, ctx, inner, join, thenBranch);
        }
        return Fail(thenBranch);
      }
      ghost var mid := escapeFlags;
      var elseBranch := StructureRegion(t.elseBlock, Some(join), ctx, backEdgeStop, fuel - 1, inner);
      if tail {
        TailDoneIs(cfg, t.elseBlock, ctx, inner, elseBranch);
      }
      if !elseBranch.Done? {
        if good {
          ArmFails(cfg, current, end, ctx, stop, elseBranch);
        }
        if tail {
          TailJoinFails(cfg, current, ctx, inner, join, elseBranch);
        }
        return Fail(elseBranch);
      }
      if good {
        MoveJoin(cfg, current, t, join, end, ctx, stop, thenBranch.value, elseBranch.value);
      }
      if tail {
        TailIf(cfg, current, t, join, end, ctx, stop, inner, thenBranch.value, elseBranch.value);
      }
      FlaggedIf(current, t.condition, thenBranch.value, elseBranch.value, FlagOf(ctx), old(escapeFlags), mid, escapeFlags);
      if poised {
        JoinAdvances(cfg, current, join, end, ctx, stop, fuel, [Linear(current), IfThenElse(current, t.condition, thenBranch.value, elseBranch.value)]);
      }
      return Done(([Linear(current), IfThenElse(current, t.condition, thenBranch.value, elseBranch.value)], Some(join)));
    }

    /** No join: a single divergent arm goes into the conditional and the region
        goes on at the other; otherwise both arms end. */
    method StructureDivergingCond(current: BlockId, t: Terminator, ctx: Option<LoopCtx>,
                                  ghost end: Option<BlockId>, ghost stop: Option<BlockId>, fuel: nat)
      returns (r: Outcome<(seq<StructureNode>, Option<BlockId>)>)
      requires Valid() && current < |cfg.blocks| && cfg.blocks[current].terminator == t && t.JumpIf?
      requires JoinAt(cfg, current).None?
      requires end != Some(current) && stop != Some(current)
      modifies this
      ensures r.Done? && r.value.1.Some? ==> r.value.1.value < |cfg.blocks|
      ensures r.Done? ==> Flagged(r.value.0, FlagOf(ctx), old(escapeFlags), escapeFlags)
      ensures Covered(cfg, current, end, ctx, stop) ==> Moved(cfg, current, end, ctx, stop, r)
      ensures Poised(cfg, current, end, ctx, stop, fuel) && !HeaderOf(cfg, current) ==> Advanced(cfg, current, ctx, stop, r)
      decreases fuel, 0
    {
      hide Flagged, Covered, Moved, Complete, ValidCfg, Indexed, LoopIndex, ProcedureIndex, HeaderOf, Poised, Ready, Advanced;
      ghost var poised := Poised(cfg, current, end, ctx, stop, fuel) && !HeaderOf(cfg, current);
      if poised {
        PoisedFuel(cfg, current, end, ctx, stop, fuel);
      }
      if fuel == 0 {
        OutOfFuelMoves(cfg, current, end, ctx, stop);
        return OutOfFuel;
      }
      TerminatorTargets(cfg, current);
      var backEdgeStop := if ctx.Some? then Some(ctx.value.header) else None;
      ghost var good := Covered(cfg, current, end, ctx, stop);
      if good {
        LeafArmsCovered(cfg, current, t, end, ctx, stop);
      }
      if poised {
        ArmsReady(cfg, current, t, end, ctx, stop, None, fuel);
        CoveredReached(cfg, current, end, ctx, stop);
        ArmEdges(cfg, current);
      }
      var thenDivergent := t.thenBlock in cfg.divergentBlocks;
      var elseDivergent := t.elseBlock in cfg.divergentBlocks;
      if thenDivergent != elseDivergent {
        var divergentArm := if thenDivergent then t.thenBlock else t.elseBlock;
        var continuingArm := if thenDivergent then t.elseBlock else t.thenBlock;
        var branch := StructureRegion(divergentArm, None, ctx, backEdgeStop, fuel - 1, {});
        if !branch.Done? {
          if good {
            ArmFails(cfg, current, end, ctx, stop, branch);
          }
          return Fail(branch);
        }
        if good {
          MoveHalf(cfg, current, t, thenDivergent, end, ctx, stop, branch.value);
        }
        var node := if thenDivergent then IfThenElse(current, t.condition, branch.value, []) else IfThenElse(current, t.condition, [], branch.value);
        FlaggedNothing(FlagOf(ctx), old(escapeFlags));
        FlaggedNothing(FlagOf(ctx), escapeFlags);
        FlaggedIf(current, t.condition, if thenDivergent then branch.value else [], if thenDivergent then [] else branch.value, FlagOf(ctx),
                  old(escapeFlags), if thenDivergent then escapeFlags else old(escapeFlags), escapeFlags);
        if poised {
          TurnAdvances(cfg, current, continuingArm, end, ctx, stop, fuel, [Linear(current), node]);
        }
        return Done(([Linear(current), node], Some(continuingArm)));
      }
      var thenBranch := StructureRegion(t.thenBlock, None, ctx, backEdgeStop, fuel - 1, {});
      if !thenBranch.Done? {
        if good {
          ArmFails(cfg, current, end, ctx, stop, thenBranch);
        }
        return Fail(thenBranch);
      }
      ghost var mid := escapeFlags;
      var elseBranch := StructureRegion(t.elseBlock, None, ctx, backEdgeStop, fuel - 1, {});
      if !elseBranch.Done? {
        if good {
          ArmFails(cfg, current, end, ctx, stop, elseBranch);
        }
        return Fail(elseBranch);
      }
      if good {
        MoveLeaves(cfg, current, t, end, ctx, stop, thenBranch.value, elseBranch.value);
      }
      FlaggedIf(current, t.condition, thenBranch.value, elseBranch.value, FlagOf(ctx), old(escapeFlags), mid, escapeFlags);
      TurnEnds(cfg, current, ctx, stop, [Linear(current), IfThenElse(current, t.condition, thenBranch.value, elseBranch.value)]);
      return Done(([Linear(current), IfThenElse(current, t.condition, thenBranch.value, elseBranch.value)], None));
    }

    /** Classifies the loop and builds its node. */
    method StructureLoop(loopIdx: nat, ghost current: BlockId, ghost end: Option<BlockId>, ghost ctx: Option<LoopCtx>,
                         ghost stop: Option<BlockId>, fuel: nat)
      returns (r: Outcome<(seq<StructureNode>, Option<BlockId>)>)
      requires Valid() && loopIdx < |cfg.loops| && cfg.loops[loopIdx].header == current < |cfg.blocks|
      requires end != Some(current) && stop != Some(current)
      modifies this
      ensures r.Done? && r.value.1.Some? ==> r.value.1.value < |cfg.blocks|
      ensures r.Done? ==> Flagged(r.value.0, FlagOf(ctx), old(escapeFlags), escapeFlags)
      ensures Covered(cfg, current, end, ctx, stop) ==> Moved(cfg, current, end, ctx, stop, r)
      ensures Poised(cfg, current, end, ctx, stop, fuel) ==> Advanced(cfg, current, ctx, stop, r)
      decreases fuel, 1
    {
      hide Flagged, Covered, Moved, ValidCfg, Indexed, LoopIndex, ProcedureIndex, ValidShape, DecidesExit, LeavesOnce, Poised, Advanced, BreaksAtTail, BuildsTail;
      if Poised(cfg, current, end, ctx, stop, fuel) {
        PoisedFuel(cfg, current, end, ctx, stop, fuel);
        LoopReady(cfg, loopIdx, end, ctx, stop, fuel);
      }
      if fuel == 0 {
        OutOfFuelMoves(cfg, current, end, ctx, stop);
        return OutOfFuel;
      }
      var shaped := GetLoopShape(cfg, cfg.loops[loopIdx], fuel);
      if !shaped.Done? {
        if Covered(cfg, current, end, ctx, stop) {
          FailedMoves(cfg, current, end, ctx, stop, shaped);
        }
        return Fail(shaped);
      }
      r := StructureShapedLoop(loopIdx, shaped.value, current, end, ctx, stop, fuel);
    }

    /** The loop node, the trampolines it exits through, and the block behind
        them. A flag is allocated if an exit edge starts inside the body; if its
        tests all lead back to the header or out, such a loop is accepted and
        agrees with the graph unless the graph breaks. */
    method StructureShapedLoop(loopIdx: nat, shape: LoopShape, ghost current: BlockId, ghost end: Option<BlockId>, ghost ctx: Option<LoopCtx>,
                               ghost stop: Option<BlockId>, fuel: nat)
      returns (r: Outcome<(seq<StructureNode>, Option<BlockId>)>)
      requires Valid() && loopIdx < |cfg.loops| && cfg.loops[loopIdx].header == current < |cfg.blocks| && fuel > 0
      requires end != Some(current) && stop != Some(current)
      requires ValidShape(cfg, cfg.loops[loopIdx], shape)
      requires DecidesExit(cfg, cfg.loops[loopIdx]) ==> shape.effectiveHeader == current
      modifies this
      ensures r.Done? && r.value.1.Some? ==> r.value.1.value < |cfg.blocks|
      ensures r.Done? ==> Flagged(r.value.0, FlagOf(ctx), old(escapeFlags), escapeFlags)
      ensures Covered(cfg, current, end, ctx, stop) ==> Moved(cfg, current, end, ctx, stop, r)
      ensures Poised(cfg, current, end, ctx, stop, fuel) ==> Advanced(cfg, current, ctx, stop, r)
      ensures r.Done? ==> FlaggedIfNeeded(shape, current, r.value.0)
      ensures BreaksAtTail(cfg, cfg.loops[loopIdx], shape) ==> BuildsTail(cfg, cfg.loops[loopIdx], shape, old(escapeFlags), r)
      decreases fuel, 0
    {
      hide Flagged, Covered, Moved, Complete, ValidCfg, Indexed, LoopIndex, ProcedureIndex, HeaderOf, ValidShape, DecidesExit, LeavesOnce, Poised, Ready, Advanced,
           InTail, TailDone, BreaksAtTail, BuildsTail;
      ghost var poised := Poised(cfg, current, end, ctx, stop, fuel);
      ghost var good := Covered(cfg, current, end, ctx, stop);
      var l := cfg.loops[loopIdx];
      var header := l.header;
      ghost var tail := BreaksAtTail(cfg, l, shape);
      ghost var inner := InnerOf(cfg, shape.bodyEntry, header, shape.exitDest);
      ShapeBounds(cfg, l, shape);
      if poised {
        PoisedFuel(cfg, current, end, ctx, stop, fuel);
      }
      if good {
        CoveredLoop(cfg, loopIdx, shape, end, ctx, stop);
      }
      if poised {
        BodyReady(cfg, loopIdx, shape, end, ctx, stop, fuel);
      }
      if tail {
        TailShape(cfg, loopIdx, shape, escapeFlags);
      }
      var bodyInternalExits := false;
      for i := 0 to |shape.exitEdges|
        invariant good ==> !bodyInternalExits
        invariant bodyInternalExits <==> ExitsInside(shape, header, i)
      {
        assert shape.exitEdges[i] in shape.exitEdges;
        if shape.exitEdges[i].0 != header && shape.exitEdges[i].0 != shape.effectiveHeader {
          bodyInternalExits := true;
        }
      }
      var escapeFlag: Option<nat> := None;
      if bodyInternalExits {
        var slot := AllocEscapeFlag();
        escapeFlag := Some(slot);
      }
      ghost var first := escapeFlags;
      ghost var slotNumber := old(escapeFlags);
      FlaggedNothing(escapeFlag, first);
      var bodyCtx := LoopCtx(header, shape.exitDest, escapeFlag);
      var testPrefix: seq<StructureNode> := [];
      if shape.effectiveHeader != header {
        var prefix := StructureRegion(header, Some(shape.effectiveHeader), Some(bodyCtx), None, fuel - 1, {});
        if !prefix.Done? {
          return Fail(prefix);
        }
        testPrefix := prefix.value;
      }
      FlaggedLeaf(Linear(shape.effectiveHeader), escapeFlag, escapeFlags);
      FlaggedConcat(testPrefix, [Linear(shape.effectiveHeader)], escapeFlag, first, escapeFlags, escapeFlags);
      testPrefix := testPrefix + [Linear(shape.effectiveHeader)];
      ghost var mid := escapeFlags;
      if tail {
        TailEnters(cfg, l, shape, bodyCtx);
      }
      var body := StructureRegion(shape.bodyEntry, None, Some(bodyCtx), Some(header), fuel - 1, inner);
      if tail {
        TailDoneIs(cfg, shape.bodyEntry, Some(bodyCtx), inner, body);
      }
      if !body.Done? {
        if good {
          ArmFails(cfg, current, end, ctx, stop, body);
        }
        if tail {
          TailUnbuilt(cfg, l, shape, slotNumber, body);
        }
        return Fail(body);
      }
      if tail {
        TailAccepted(cfg, l, shape, bodyCtx, body.value);
      }
      if escapeFlag.Some? && !FlagsAtTail(body.value, true) {
        return Rejected(UnsupportedBrillig("break at non-tail position is not supported"));
      }
      LoopFlagged(header, testPrefix, shape.condition, escapeFlag, body.value, FlagOf(ctx), old(escapeFlags), mid, escapeFlags);
      FlaggedChain(LinearNodes(shape.exitPrefix), FlagOf(ctx), escapeFlags);
      FlaggedConcat([Loop(header, testPrefix, shape.condition, escapeFlag, body.value)], LinearNodes(shape.exitPrefix), FlagOf(ctx),
                    old(escapeFlags), escapeFlags, escapeFlags);
      var nodes := [Loop(header, testPrefix, shape.condition, escapeFlag, body.value)] + LinearNodes(shape.exitPrefix);
      if good {
        assert testPrefix == [Linear(header)];
        MoveLoop(cfg, loopIdx, shape, end, ctx, stop, body.value);
      }
      if tail {
        assert testPrefix == [Linear(header)];
        TailBuilt(cfg, loopIdx, shape, slotNumber, bodyCtx, body.value, nodes);
      }
      if poised {
        LoopAdvances(cfg, loopIdx, shape, end, ctx, stop, fuel, nodes);
      }
      return Done((nodes, Some(shape.exitDest)));
    }
  }

  function Fail<T, U>(r: Outcome<T>): (s: Outcome<U>)
    requires !r.Done?
    ensures !s.Done? && (s.Panicked? <==> r.Panicked?)
  {
    match r
    case Rejected(e) => Rejected(e)
    case Panicked => Panicked
    case OutOfFuel => OutOfFuel
  }
}
