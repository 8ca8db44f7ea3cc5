/** The context of a region walk and how each step of the walk keeps it. */
module RegionWalk {
  import opened Graphs
  import opened CfgTypes
  import opened DomTrees
  import opened Rooted
  import opened Views
  import opened Divergence
  import opened PostDominance
  import opened CfgBuild
  import opened StructureTree
  import opened Simulation
  import opened LoopShapes
  import opened RegionFacts

  /** The loop whose body is walked: its header, where it exits to, and the flag
      of a loop with several exits. */
  datatype LoopCtx = LoopCtx(header: BlockId, exitDest: BlockId, escapeFlag: Option<nat>)

  function JoinAt(c: Cfg, b: BlockId): Option<BlockId> {
    if b < |c.postDominators.idom| then c.postDominators.idom[b] else None
  }

  /** `j` is where the arms of some conditional jump, not a loop header, join. */
  ghost predicate JoinBlock(c: Cfg, j: BlockId) {
    exists u: nat :: u < |c.blocks| && c.blocks[u].terminator.JumpIf? && !HeaderOf(c, u) && JoinAt(c, u) == Some(j)
  }

  ghost predicate EndOk(c: Cfg, end: Option<BlockId>, ctx: Option<LoopCtx>) {
    end.Some? ==>
      && IsLive(c, end.value) && JoinBlock(c, end.value)
      && (ctx.Some? ==> end.value == ctx.value.header || !PostDom(c, end.value, ctx.value.header))
  }

  ghost predicate CtxOk(c: Cfg, ctx: Option<LoopCtx>, stop: Option<BlockId>) {
    && (ctx.Some? ==>
          && HeaderOf(c, ctx.value.header) && ctx.value.escapeFlag.None?
          && IsLive(c, ctx.value.exitDest) && !BodyOf(c, ctx.value.header, ctx.value.exitDest))
    && stop == (if ctx.Some? then Some(ctx.value.header) else None)
  }

  /** A live block of the region lies in the enclosing loop, and the join that
      ends the region post-dominates it. */
  ghost predicate BlockOk(c: Cfg, b: BlockId, end: Option<BlockId>, ctx: Option<LoopCtx>) {
    && Reached(c, b)
    && (IsLive(c, b) ==>
          && (ctx.Some? ==> BodyOf(c, ctx.value.header, b))
          && (end.Some? ==> PostDom(c, end.value, b)))
  }

  ghost predicate RegionOk(c: Cfg, b: BlockId, end: Option<BlockId>, ctx: Option<LoopCtx>, stop: Option<BlockId>) {
    EndOk(c, end, ctx) && CtxOk(c, ctx, stop) && BlockOk(c, b, end, ctx)
  }

  /** Where the graph stands when a region has been walked to its end. */
  ghost function ExitOf(c: Cfg, entry: BlockId, end: Option<BlockId>, ctx: Option<LoopCtx>): Exit {
    if !IsLive(c, entry) then Never
    else if end.Some? then At(end.value)
    else if ctx.Some? then At(ctx.value.header)
    else Leave
  }

  // ── Steps ────────────────────────────────────────────────────────────────

  /** Along a live edge the next block is fine as well, unless the walk stands
      at the end of the region. */
  lemma StepOk(c: Cfg, u: BlockId, v: BlockId, end: Option<BlockId>, ctx: Option<LoopCtx>, stop: Option<BlockId>)
    requires Structurable(c) && RegionOk(c, u, end, ctx, stop) && IsLive(c, u)
    requires end != Some(u) && stop != Some(u) && Edge(c.callerSucc, u, v)
    ensures RegionOk(c, v, end, ctx, stop)
  {
    Sizes(c);
    ReachedEdge(c, u, v);
    if IsLive(c, v) {
      LiveEdge(c, u, v);
      if ctx.Some? {
        StaysInBody(c, ctx.value.header, u, v);
      }
      if end.Some? {
        PostDomStep(c, end.value, u, v);
      }
    }
  }

  /** A divergent block stays divergent along its edges. */
  lemma DivergentStepOk(c: Cfg, u: BlockId, v: BlockId, end: Option<BlockId>, ctx: Option<LoopCtx>, stop: Option<BlockId>)
    requires Structurable(c) && RegionOk(c, u, end, ctx, stop) && !IsLive(c, u) && Edge(c.callerSucc, u, v)
    ensures RegionOk(c, v, end, ctx, stop) && !IsLive(c, v)
  {
    hide ValidPostDom, ValidDomTree, Reducible, HeaderExitLoops, PostDom, BodyOf, RootReach;
    Sizes(c);
    CallerOf(c, u);
    ReachedEdge(c, u, v);
    DivergentStep(c, u, v);
  }

  /** A single successor keeps the kind of the block. */
  lemma OnlyStepOk(c: Cfg, u: BlockId, v: BlockId, end: Option<BlockId>, ctx: Option<LoopCtx>, stop: Option<BlockId>)
    requires Structurable(c) && RegionOk(c, u, end, ctx, stop)
    requires end != Some(u) && stop != Some(u)
    requires u < |c.callerSucc| && c.callerSucc[u] == [v]
    ensures RegionOk(c, v, end, ctx, stop) && (IsLive(c, u) <==> IsLive(c, v))
  {
    Sizes(c);
    assert Edge(c.callerSucc, u, v);
    if IsLive(c, u) {
      OnlyStepLive(c, u, v);
      StepOk(c, u, v, end, ctx, stop);
    } else {
      DivergentStepOk(c, u, v, end, ctx, stop);
    }
  }

  /** The walk stops at a header only where its region ends. */
  lemma StopIsEnd(c: Cfg, u: BlockId, end: Option<BlockId>, ctx: Option<LoopCtx>, stop: Option<BlockId>)
    requires Structurable(c) && RegionOk(c, u, end, ctx, stop)
    requires end == Some(u) || stop == Some(u)
    ensures IsLive(c, u) && ExitOf(c, u, end, ctx) == At(u)
  {
    if stop == Some(u) {
      HeaderIsJumpIf(c, u);
    }
  }

  lemma ReturnIsLive(c: Cfg, u: BlockId)
    requires ValidCfg(c) && u < |c.blocks|
    requires c.blocks[u].terminator.Return? || c.blocks[u].terminator.Stop?
    ensures IsLive(c, u)
  {
    ExitHasNoSuccessor(c, u);
    assert !Diverges(c.callerSucc, Leaves(c.blocks, NonReturning(c.blocks)), u);
  }

  lemma ExitPostDominated(c: Cfg, u: BlockId, e: BlockId)
    requires ValidCfg(c) && u < |c.blocks| && IsExit(c.blocks[u].terminator) && PostDom(c, e, u)
    ensures e == u
  {
    Sizes(c);
    assert ExitPath(LiveSucc(c), c.blocks, [u], u);
  }

  /** A body is left only where no join and no loop encloses the walk. */
  lemma ExitMeansLeave(c: Cfg, u: BlockId, end: Option<BlockId>, ctx: Option<LoopCtx>, stop: Option<BlockId>)
    requires Structurable(c) && RegionOk(c, u, end, ctx, stop)
    requires end != Some(u) && stop != Some(u)
    requires c.blocks[u].terminator.Return? || c.blocks[u].terminator.Stop?
    ensures IsLive(c, u) && end.None? && ctx.None?
  {
    ExitHasNoSuccessor(c, u);
    ReturnIsLive(c, u);
    if ctx.Some? {
      BodyGoesOn(c, ctx.value.header, u);
    }
    if end.Some? {
      ExitPostDominated(c, u, end.value);
    }
  }

  // ── Conditional jumps ────────────────────────────────────────────────────

  /** What the post-dominator table says about a block whose arms join. */
  lemma JoinFacts(c: Cfg, u: BlockId, j: BlockId)
    requires Structurable(c) && Reached(c, u) && JoinAt(c, u) == Some(j) && !IsExit(c.blocks[u].terminator)
    ensures j != u && PostDom(c, j, u) && Reached(c, j) && IsLive(c, j) && IsLive(c, u)
    ensures forall e: nat :: e != u && PostDom(c, e, u) ==> PostDom(c, e, j)
  {
    Sizes(c);
    var g := LiveSucc(c);
    assert ReachesExit(g, c.blocks, u);
    var p :| ExitPath(g, c.blocks, p, u);
    assert j in p;
    var k := FirstIndex(p, j);
    assert |p| > 1;
    assert Edge(g, p[0], p[0 + 1]);
    LiveEdge(c, u, p[1]);
    if !IsLive(c, u) {
      CallerOf(c, u);
      DivergentStep(c, u, p[1]);
    }
    LivePathReached(c, u, p);
  }

  /** Both arms of a jump that joins are regions of their own up to the join,
      and the walk goes on at the join. */
  lemma ArmsOk(c: Cfg, u: BlockId, j: BlockId, end: Option<BlockId>, ctx: Option<LoopCtx>, stop: Option<BlockId>)
    requires Structurable(c) && RegionOk(c, u, end, ctx, stop)
    requires end != Some(u) && stop != Some(u) && !HeaderOf(c, u)
    requires c.blocks[u].terminator.JumpIf? && JoinAt(c, u) == Some(j)
    ensures IsLive(c, u) && IsLive(c, j)
    ensures RegionOk(c, c.blocks[u].terminator.thenBlock, Some(j), ctx, stop)
    ensures RegionOk(c, c.blocks[u].terminator.elseBlock, Some(j), ctx, stop)
    ensures RegionOk(c, j, end, ctx, stop)
  {
    hide Structurable, ValidCfg, RegionOk, JoinAt, HeaderOf, Edge;
    JoinRegion(c, u, j, end, ctx, stop);
    StructurableValid(c);
    BothArms(c, u);
    StepOk(c, u, c.blocks[u].terminator.thenBlock, Some(j), ctx, stop);
    StepOk(c, u, c.blocks[u].terminator.elseBlock, Some(j), ctx, stop);
  }

  lemma StructurableValid(c: Cfg)
    requires Structurable(c)
    ensures ValidCfg(c)
  {
  }

  /** The jump lies in the region that ends at its join, and the join in the
      region around it. */
  lemma JoinRegion(c: Cfg, u: BlockId, j: BlockId, end: Option<BlockId>, ctx: Option<LoopCtx>, stop: Option<BlockId>)
    requires Structurable(c) && RegionOk(c, u, end, ctx, stop)
    requires end != Some(u) && stop != Some(u) && !HeaderOf(c, u)
    requires c.blocks[u].terminator.JumpIf? && JoinAt(c, u) == Some(j)
    ensures u < |c.blocks| && IsLive(c, u) && IsLive(c, j) && j != u
    ensures RegionOk(c, u, Some(j), ctx, stop) && RegionOk(c, j, end, ctx, stop)
  {
    hide ValidCfg, HeaderExitLoops, PostDom, BodyOf, HeaderOf, JoinAt;
    JoinFacts(c, u, j);
    if ctx.Some? {
      JoinInLoop(c, ctx.value.header, u, j);
    }
    assert JoinBlock(c, j);
  }

  lemma BothArms(c: Cfg, u: BlockId)
    requires ValidCfg(c) && u < |c.blocks| && c.blocks[u].terminator.JumpIf?
    ensures Edge(c.callerSucc, u, c.blocks[u].terminator.thenBlock) && Edge(c.callerSucc, u, c.blocks[u].terminator.elseBlock)
  {
    CallerOf(c, u);
    var t := c.blocks[u].terminator;
    assert t.thenBlock in Targets(t) && t.elseBlock in Targets(t);
  }

  /** Inside a loop the arms join in the body, or at the header. */
  lemma JoinInLoop(c: Cfg, h: BlockId, u: BlockId, j: BlockId)
    requires Structurable(c) && HeaderOf(c, h) && Reached(c, u) && BodyOf(c, h, u) && u != h
    requires JoinAt(c, u) == Some(j) && !IsExit(c.blocks[u].terminator)
    ensures j == h || !PostDom(c, j, h)
    ensures BodyOf(c, h, j)
  {
    JoinFacts(c, u, j);
    HeaderPostDominates(c, h, u);
    assert PostDom(c, h, j);
    LiveReachesExit(c, j);
    if PostDom(c, j, h) {
      PostDomAntisym(c, h, j);
    } else {
      JoinInBody(c, h, u, j);
    }
  }

  /** A join the header can avoid lies before the header. */
  lemma JoinInBody(c: Cfg, h: BlockId, u: BlockId, j: BlockId)
    requires Structurable(c) && HeaderOf(c, h) && BodyOf(c, h, u) && PostDom(c, j, u)
    requires ReachesExit(LiveSucc(c), c.blocks, u) && !PostDom(c, j, h)
    ensures BodyOf(c, h, j)
  {
    hide ValidCfg, HeaderExitLoops, HeaderOf, LiveSucc;
    var g := LiveSucc(c);
    var q :| ExitPath(g, c.blocks, q, u);
    HeaderOnExitPath(c, h, u, q);
    var i := FirstIndex(q, h);
    PathPrefix(g, q, u, q[|q| - 1], i);
    var toH := q[..i + 1];
    var r :| ExitPath(g, c.blocks, r, h) && j !in r;
    PathConcat(g, toH, r, u, h, r[|r| - 1]);
    assert ExitPath(g, c.blocks, toH + r[1..], u);
    assert j in toH + r[1..];
    var m :| 0 <= m < |toH| && toH[m] == j;
    BodyUpToHeader(c, h, u, toH, m);
  }

  lemma {:induction false} BodyUpToHeader(c: Cfg, h: BlockId, u: BlockId, p: seq<nat>, m: nat)
    requires Structurable(c) && HeaderOf(c, h) && BodyOf(c, h, u)
    requires PathFromTo(LiveSucc(c), p, u, h) && h !in p[..|p| - 1] && m < |p|
    ensures BodyOf(c, h, p[m])
    decreases m
  {
    if m > 0 {
      BodyUpToHeader(c, h, u, p, m - 1);
      assert p[m - 1] == p[..|p| - 1][m - 1];
      assert Edge(LiveSucc(c), p[m - 1], p[m - 1 + 1]);
      StaysInBody(c, h, p[m - 1], p[m]);
    }
  }

  /** A live jump whose arms do not join is enclosed by no join and no loop. */
  lemma NoJoinMeansLeave(c: Cfg, u: BlockId, end: Option<BlockId>, ctx: Option<LoopCtx>, stop: Option<BlockId>)
    requires Structurable(c) && RegionOk(c, u, end, ctx, stop) && IsLive(c, u)
    requires end != Some(u) && stop != Some(u) && JoinAt(c, u).None?
    ensures end.None? && ctx.None?
  {
    Sizes(c);
    LiveReachesExit(c, u);
    if ctx.Some? {
      HeaderPostDominates(c, ctx.value.header, u);
    }
  }

  /** The arms of a divergent conditional jump both diverge, and do not join. */
  lemma DivergentArms(c: Cfg, u: BlockId, end: Option<BlockId>, ctx: Option<LoopCtx>, stop: Option<BlockId>)
    requires Structurable(c) && RegionOk(c, u, end, ctx, stop) && !IsLive(c, u)
    requires c.blocks[u].terminator.JumpIf?
    ensures JoinAt(c, u).None?
    ensures !IsLive(c, c.blocks[u].terminator.thenBlock) && !IsLive(c, c.blocks[u].terminator.elseBlock)
  {
    DivergentArmsDiverge(c, u);
    hide ValidCfg, HeaderExitLoops, EndOk, CtxOk, PostDom, BodyOf;
    if JoinAt(c, u).Some? {
      JoinFacts(c, u, JoinAt(c, u).value);
    }
  }

  lemma DivergentArmsDiverge(c: Cfg, u: BlockId)
    requires ValidCfg(c) && u < |c.blocks| && c.blocks[u].terminator.JumpIf? && !IsLive(c, u)
    ensures !IsLive(c, c.blocks[u].terminator.thenBlock) && !IsLive(c, c.blocks[u].terminator.elseBlock)
  {
    BothArms(c, u);
    CallerOf(c, u);
    DivergentStep(c, u, c.blocks[u].terminator.thenBlock);
    DivergentStep(c, u, c.blocks[u].terminator.elseBlock);
  }

  // ── Loops ────────────────────────────────────────────────────────────────

  /** A trampoline a loop exits through is not the end of the region. */
  lemma TrampolineNotEnd(c: Cfg, p: BlockId, t: BlockId, end: Option<BlockId>, ctx: Option<LoopCtx>, stop: Option<BlockId>)
    requires Structurable(c) && RegionOk(c, p, end, ctx, stop) && IsLive(c, p) && end != Some(p)
    requires HeaderOf(c, p) || c.blocks[p].terminator.Jump? || c.blocks[p].terminator.Fallthrough?
    requires Edge(c.callerSucc, p, t) && IsLive(c, t)
    requires t < |c.callerPred| && |c.callerPred[t]| == 1
    ensures end != Some(t)
  {
    hide ValidCfg, HeaderExitLoops, LiveSucc, PostDom;
    if end == Some(t) {
      var u: nat :| u < |c.blocks| && c.blocks[u].terminator.JumpIf? && !HeaderOf(c, u) && JoinAt(c, u) == Some(t);
      JoinInherits(c, u, t);
      OnlyPredPostDominates(c, u, p, t);
      ReachedEdge(c, p, t);
      LiveReachesExit(c, t);
      PostDomAntisym(c, p, t);
    }
  }

  /** The join of `u` post-dominates `u`, and what else does post-dominates the
      join. */
  lemma JoinInherits(c: Cfg, u: BlockId, j: BlockId)
    requires ValidCfg(c) && u < |c.blocks| && JoinAt(c, u) == Some(j)
    ensures j != u && PostDom(c, j, u)
    ensures forall e: nat :: e != u && PostDom(c, e, u) ==> PostDom(c, e, j)
  {
    Sizes(c);
  }

  /** The only predecessor of a post-dominator of `u` post-dominates `u` too. */
  lemma OnlyPredPostDominates(c: Cfg, u: BlockId, p: BlockId, t: BlockId)
    requires ValidCfg(c) && u < |c.blocks| && t != u && PostDom(c, t, u)
    requires Edge(c.callerSucc, p, t) && t < |c.callerPred| && |c.callerPred[t]| == 1
    ensures PostDom(c, p, u)
  {
    Sizes(c);
    var g := LiveSucc(c);
    forall q | ExitPath(g, c.blocks, q, u)
      ensures p in q
    {
      assert t in q;
      var k := FirstIndex(q, t);
      assert k > 0;
      assert Edge(g, q[k - 1], q[k - 1 + 1]);
      LiveEdge(c, q[k - 1], t);
      OnlyPredecessor(c, p, q[k - 1], t);
    }
  }

  lemma OnlyPredecessor(c: Cfg, p: BlockId, q: BlockId, t: BlockId)
    requires ValidCfg(c) && t < |c.callerPred| && |c.callerPred[t]| == 1
    requires Edge(c.callerSucc, p, t) && Edge(c.callerSucc, q, t)
    ensures p == q
  {
    hide *;
    ListedPredecessor(c, p, t);
    ListedPredecessor(c, q, t);
    assert c.callerPred[t][0] == p && c.callerPred[t][0] == q;
  }

  lemma ListedPredecessor(c: Cfg, p: BlockId, t: BlockId)
    requires ValidCfg(c) && Edge(c.callerSucc, p, t)
    ensures t < |c.callerPred| && p in c.callerPred[t]
  {
    Sizes(c);
    CallerInverse(c);
    hide ValidCfg, Inverse;
    EdgeInRange(c.callerSucc, p, t);
    InverseEdge(c.callerSucc, c.callerPred, p, t);
  }

  lemma CallerInverse(c: Cfg)
    requires ValidCfg(c)
    ensures Inverse(c.callerSucc, c.callerPred)
  {
  }
}
