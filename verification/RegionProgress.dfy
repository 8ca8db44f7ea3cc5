/** Why the walk ends: every step goes up in the numbering, or to the header
    where the region ends. */
module RegionProgress {
  import opened Graphs
  import opened CfgTypes
  import opened DomTrees
  import opened Rooted
  import opened Loops
  import opened Views
  import opened PostDominance
  import opened CfgBuild
  import opened LoopShapes
  import opened RegionFacts
  import opened RegionWalk
  import opened RegionSteps

  function Rank(c: Cfg, b: BlockId): nat {
    Index(c.dominators.rpoIndex, b)
  }

  /** Every loop a live block lies in, except its own, is the one being walked or
      lies around it. */
  ghost predicate Innermost(c: Cfg, b: BlockId, ctx: Option<LoopCtx>) {
    IsLive(c, b) ==>
      forall x: nat :: HeaderOf(c, x) && x != b && BodyOf(c, x, b) ==>
        ctx.Some? && (x == ctx.value.header || BodyOf(c, x, ctx.value.header))
  }

  /** A step of the walk: the region ends there, or the number goes up. */
  ghost predicate Onward(c: Cfg, u: BlockId, v: BlockId, ctx: Option<LoopCtx>, stop: Option<BlockId>) {
    Innermost(c, v, ctx) && (stop == Some(v) || Rank(c, u) < Rank(c, v))
  }

  lemma RankBound(c: Cfg, b: BlockId)
    requires ValidCfg(c)
    ensures Rank(c, b) <= |c.blocks|
  {
    Sizes(c);
  }

  /** Two headers in each other's loop are the same. */
  lemma SameHeader(c: Cfg, x: BlockId, y: BlockId)
    requires Reached(c, y) && BodyOf(c, x, y) && BodyOf(c, y, x)
    ensures x == y
  {
    HeaderDominatesBody(c.callerSucc, Roots(c), x, y);
    HeaderDominatesBody(c.callerSucc, Roots(c), y, x);
    RootDominatesAntisym(c.callerSucc, Roots(c), x, y);
  }

  lemma HeaderReached(c: Cfg, h: BlockId, b: BlockId)
    requires ValidCfg(c) && Reached(c, b) && BodyOf(c, h, b) && HeaderOf(c, h)
    ensures Reached(c, h)
  {
    Sizes(c);
    HeaderDominatesBody(c.callerSucc, Roots(c), h, b);
    DominatorReached(c.callerSucc, Roots(c), h, b);
    var i :| 0 <= i < |c.loops| && c.loops[i].header == h;
    assert IsLoop(c.callerSucc, Roots(c), c.loops[i]);
  }

  /** An edge that does not go up leads from a loop to its header. */
  lemma Retreating(c: Cfg, u: BlockId, v: BlockId)
    requires ValidCfg(c) && Reached(c, u) && Edge(c.callerSucc, u, v) && Rank(c, v) <= Rank(c, u)
    ensures HeaderOf(c, v) && BodyOf(c, v, u)
  {
    hide RootReach, RootDominates, HeaderOf, BodyOf;
    Sizes(c);
    ReachedEdge(c, u, v);
    EntersLowest(c, u, v);
    BackEdgeInBody(c, u, v);
  }

  lemma BackEdgeInBody(c: Cfg, u: BlockId, v: BlockId)
    requires BackEdge(c.callerSucc, Roots(c), u, v)
    ensures BodyOf(c, v, u)
  {
    if u != v {
      assert AvoidingPath(c.callerSucc, v, [u], u, u);
    }
  }

  /** A loop of the walked header that a body block lies in is the walked one. */
  lemma NoOuterHeader(c: Cfg, u: BlockId, v: BlockId, h: BlockId)
    requires Structurable(c) && Reached(c, u) && HeaderOf(c, h) && BodyOf(c, h, u) && BodyOf(c, h, v)
    requires v == h || BodyOf(c, v, h)
    ensures v == h
  {
    HeaderReached(c, h, u);
    SameHeader(c, v, h);
  }

  /** An edge of the region goes up, unless it leads to the end of the region or
      closes a loop of one block. */
  lemma EdgeUp(c: Cfg, u: BlockId, v: BlockId, end: Option<BlockId>, ctx: Option<LoopCtx>, stop: Option<BlockId>)
    requires Structurable(c) && RegionOk(c, u, end, ctx, stop) && Innermost(c, u, ctx)
    requires stop != Some(u) && Edge(c.callerSucc, u, v)
    ensures Rank(c, u) < Rank(c, v) || stop == Some(v) || (u == v && HeaderOf(c, u))
  {
    if Rank(c, v) <= Rank(c, u) && u != v {
      Retreating(c, u, v);
      HeaderIsJumpIf(c, v);
      if !IsLive(c, u) {
        HeaderHasNoDivergentSource(c, u, v);
      }
      if v != ctx.value.header {
        LiveEdge(c, u, v);
        StaysInBody(c, ctx.value.header, u, v);
        NoOuterHeader(c, u, v, ctx.value.header);
      }
    } else if u == v {
      Retreating(c, u, v);
    }
  }

  lemma HeaderHasNoDivergentSource(c: Cfg, u: BlockId, v: BlockId)
    requires Structurable(c) && Reached(c, u) && Edge(c.callerSucc, u, v) && IsLive(c, v)
    ensures IsLive(c, u)
  {
    if !IsLive(c, u) {
      CallerOf(c, u);
      DivergentStep(c, u, v);
    }
  }

  /** A step from a block that is no header. */
  lemma StepOnward(c: Cfg, u: BlockId, v: BlockId, end: Option<BlockId>, ctx: Option<LoopCtx>, stop: Option<BlockId>)
    requires Structurable(c) && RegionOk(c, u, end, ctx, stop) && Innermost(c, u, ctx) && !HeaderOf(c, u)
    requires stop != Some(u) && Edge(c.callerSucc, u, v)
    ensures Onward(c, u, v, ctx, stop)
  {
    EdgeUp(c, u, v, end, ctx, stop);
    if IsLive(c, v) {
      HeaderHasNoDivergentSource(c, u, v);
      forall x: nat | HeaderOf(c, x) && x != v && BodyOf(c, x, v)
        ensures ctx.Some? && (x == ctx.value.header || BodyOf(c, x, ctx.value.header))
      {
        SourceInBody(c, x, u, v);
      }
    }
  }

  // ── Joins ────────────────────────────────────────────────────────────────

  /** A path into a loop from outside passes its header. */
  lemma {:induction false} EntersAtHeader(c: Cfg, x: BlockId, p: seq<nat>, u: BlockId, j: BlockId)
    requires PathFromTo(c.callerSucc, p, u, j) && BodyOf(c, x, j) && !BodyOf(c, x, u)
    ensures x in p
    decreases |p|
  {
    if |p| > 1 {
      var k := |p| - 2;
      PathPrefix(c.callerSucc, p, u, j, k);
      assert Edge(c.callerSucc, p[k], p[k + 1]);
      if x != j {
        if x != p[k] {
          SourceInBody(c, x, p[k], j);
          EntersAtHeader(c, x, p[..k + 1], u, p[k]);
        }
      }
    }
  }

  /** What a path passes before the join, the join post-dominates too. */
  lemma JoinAfter(c: Cfg, u: BlockId, j: BlockId, p: seq<nat>, i: nat)
    requires PathFromTo(LiveSucc(c), p, u, j) && PostDom(c, j, u)
    requires i < |p| - 1 && j !in p[..|p| - 1]
    ensures PostDom(c, j, p[i])
  {
    var g := LiveSucc(c);
    PathPrefix(g, p, u, j, i);
    forall q | ExitPath(g, c.blocks, q, p[i])
      ensures j in q
    {
      PathConcat(g, p[..i + 1], q, u, p[i], q[|q| - 1]);
      assert ExitPath(g, c.blocks, p[..i + 1] + q[1..], u);
      assert j in p[..i + 1] + q[1..];
      assert p[..i + 1] == p[..|p| - 1][..i + 1];
    }
  }

  /** A path without repetition from a jump to its join, which it meets only at
      its end. */
  lemma JoinPath(c: Cfg, u: BlockId, j: BlockId) returns (p: seq<nat>)
    requires Structurable(c) && Reached(c, u) && JoinAt(c, u) == Some(j) && !IsExit(c.blocks[u].terminator)
    ensures PathFromTo(LiveSucc(c), p, u, j) && NoDup(p) && j !in p[..|p| - 1] && |p| > 1
  {
    hide ValidDomTree, AreLoops, Reducible, HeaderExitLoops, RootReach, LiveSucc;
    JoinFacts(c, u, j);
    Sizes(c);
    var g := LiveSucc(c);
    assert ReachesExit(g, c.blocks, u);
    hide ValidCfg;
    var q :| ExitPath(g, c.blocks, q, u);
    var k := FirstIndex(q, j);
    PathPrefix(g, q, u, q[|q| - 1], k);
    p := SimplePath(g, q[..k + 1], u, j);
    forall i | 0 <= i < |p| - 1
      ensures p[i] != j
    {
      assert p[|p| - 1] == j;
    }
  }

  /** The loops a join lies in are those of the jump. */
  lemma JoinInnermost(c: Cfg, u: BlockId, j: BlockId, p: seq<nat>, x: BlockId)
    requires Structurable(c) && Reached(c, u) && JoinAt(c, u) == Some(j) && !IsExit(c.blocks[u].terminator) && !HeaderOf(c, u)
    requires PathFromTo(LiveSucc(c), p, u, j) && j !in p[..|p| - 1]
    requires HeaderOf(c, x) && x != j && BodyOf(c, x, j)
    ensures BodyOf(c, x, u) && x != u
  {
    JoinFacts(c, u, j);
    if !BodyOf(c, x, u) {
      LivePathInCaller(c, p);
      EntersAtHeader(c, x, p, u, j);
      var i :| 0 <= i < |p| && p[i] == x;
      JoinAfter(c, u, j, p, i);
      HeaderPostDominates(c, x, j);
      LiveReachesExit(c, j);
      PostDomAntisym(c, x, j);
    }
  }

  /** On the way to a join every edge goes up. */
  lemma JoinPathUp(c: Cfg, u: BlockId, j: BlockId, p: seq<nat>, k: nat, end: Option<BlockId>, ctx: Option<LoopCtx>, stop: Option<BlockId>)
    requires Structurable(c) && RegionOk(c, u, end, ctx, stop) && Innermost(c, u, ctx)
    requires stop != Some(u) && stop != Some(j) && JoinAt(c, u) == Some(j) && !IsExit(c.blocks[u].terminator)
    requires PathFromTo(LiveSucc(c), p, u, j) && NoDup(p) && j !in p[..|p| - 1] && k < |p| - 1
    ensures Rank(c, p[k]) < Rank(c, p[k + 1])
  {
    JoinFacts(c, u, j);
    var w, y := p[k], p[k + 1];
    LivePathInCaller(c, p);
    LivePathReached(c, u, p);
    assert Edge(c.callerSucc, w, y);
    if Rank(c, y) <= Rank(c, w) {
      Retreating(c, w, y);
      PathPrefix(c.callerSucc, p, u, j, k);
      assert y !in p[..k + 1];
      assert p[0] != y;
      if !BodyOf(c, y, u) {
        EntersAtHeader(c, y, p[..k + 1], u, w);
      }
      JoinOutsideOuter(c, u, j, p, k + 1, ctx.value.header);
    }
  }

  /** Inside a loop, a path to a join in its body meets neither its header nor
      that of a loop around it. */
  lemma JoinOutsideOuter(c: Cfg, u: BlockId, j: BlockId, p: seq<nat>, k: nat, h: BlockId)
    requires Structurable(c) && Reached(c, u) && JoinAt(c, u) == Some(j) && !IsExit(c.blocks[u].terminator)
    requires HeaderOf(c, h) && BodyOf(c, h, u) && u != h && j != h
    requires PathFromTo(LiveSucc(c), p, u, j) && j !in p[..|p| - 1] && 0 < k < |p|
    ensures p[k] != h && !BodyOf(c, p[k], h)
  {
    JoinInLoop(c, h, u, j);
    JoinFacts(c, u, j);
    if h in p {
      var i :| 0 <= i < |p| && p[i] == h;
      JoinAfter(c, u, j, p, i);
    }
    BodyAlong(c, h, u, j, p, k);
    if BodyOf(c, p[k], h) {
      NoOuterHeader(c, u, p[k], h);
    }
  }

  lemma {:induction false} BodyAlong(c: Cfg, h: BlockId, u: BlockId, j: BlockId, p: seq<nat>, k: nat)
    requires Structurable(c) && HeaderOf(c, h) && BodyOf(c, h, u)
    requires PathFromTo(LiveSucc(c), p, u, j) && h !in p && k < |p|
    ensures BodyOf(c, h, p[k])
    decreases k
  {
    if k > 0 {
      BodyAlong(c, h, u, j, p, k - 1);
      assert Edge(LiveSucc(c), p[k - 1], p[k - 1 + 1]);
      StaysInBody(c, h, p[k - 1], p[k]);
    }
  }

  lemma {:induction false} UpAlong(c: Cfg, p: seq<nat>)
    requires |p| > 0 && forall k :: 0 <= k < |p| - 1 ==> Rank(c, p[k]) < Rank(c, p[k + 1])
    ensures |p| > 1 ==> Rank(c, p[0]) < Rank(c, p[|p| - 1])
    decreases |p|
  {
    if |p| > 1 {
      UpAlong(c, p[..|p| - 1]);
      assert Rank(c, p[|p| - 2]) < Rank(c, p[|p| - 2 + 1]);
    }
  }

  /** The walk goes on upwards at a join. */
  lemma JoinOnward(c: Cfg, u: BlockId, j: BlockId, end: Option<BlockId>, ctx: Option<LoopCtx>, stop: Option<BlockId>)
    requires Structurable(c) && RegionOk(c, u, end, ctx, stop) && Innermost(c, u, ctx) && !HeaderOf(c, u)
    requires stop != Some(u) && JoinAt(c, u) == Some(j) && !IsExit(c.blocks[u].terminator)
    ensures Onward(c, u, j, ctx, stop)
  {
    JoinFacts(c, u, j);
    var p := JoinPath(c, u, j);
    forall x: nat | HeaderOf(c, x) && x != j && BodyOf(c, x, j)
      ensures ctx.Some? && (x == ctx.value.header || BodyOf(c, x, ctx.value.header))
    {
      JoinInnermost(c, u, j, p, x);
    }
    if stop != Some(j) {
      forall k | 0 <= k < |p| - 1
        ensures Rank(c, p[k]) < Rank(c, p[k + 1])
      {
        JoinPathUp(c, u, j, p, k, end, ctx, stop);
      }
      UpAlong(c, p);
    }
  }

  // ── Loops ────────────────────────────────────────────────────────────────

  /** The body of a loop is entered upwards, in the context of that loop. */
  lemma BodyOnward(c: Cfg, h: BlockId, v: BlockId, dest: BlockId)
    requires Structurable(c) && Reached(c, h) && HeaderOf(c, h) && Edge(c.callerSucc, h, v) && BodyOf(c, h, v)
    ensures Onward(c, h, v, Some(LoopCtx(h, dest, None)), Some(h))
  {
    forall x: nat | HeaderOf(c, x) && x != v && BodyOf(c, x, v) && x != h
      ensures BodyOf(c, x, h)
    {
      SourceInBody(c, x, h, v);
    }
    if Rank(c, v) <= Rank(c, h) {
      Retreating(c, h, v);
      SameHeader(c, v, h);
    }
  }

  /** The loops around the exit arm of a header are around the header. */
  lemma ExitInnermost(c: Cfg, h: BlockId, v: BlockId, ctx: Option<LoopCtx>)
    requires Structurable(c) && HeaderOf(c, h) && Innermost(c, h, ctx) && Edge(c.callerSucc, h, v) && !BodyOf(c, h, v)
    ensures Innermost(c, v, ctx)
  {
    HeaderIsJumpIf(c, h);
    forall x: nat | HeaderOf(c, x) && x != v && BodyOf(c, x, v)
      ensures ctx.Some? && (x == ctx.value.header || BodyOf(c, x, ctx.value.header))
    {
      SourceInBody(c, x, h, v);
    }
  }

  /** The walk goes on upwards behind a loop. */
  lemma ExitOnward(c: Cfg, h: BlockId, start: BlockId, chain: seq<BlockId>, dest: BlockId, end: Option<BlockId>, ctx: Option<LoopCtx>,
                   stop: Option<BlockId>)
    requires Structurable(c) && Indexed(c) && TrampolineChain(c, start, chain, dest)
    requires RegionOk(c, h, end, ctx, stop) && HeaderOf(c, h) && Innermost(c, h, ctx) && end != Some(h) && stop != Some(h)
    requires Edge(c.callerSucc, h, start) && !BodyOf(c, h, start) && IsLive(c, start)
    ensures Onward(c, h, dest, ctx, stop)
  {
    HeaderIsJumpIf(c, h);
    EdgeUp(c, h, start, end, ctx, stop);
    StepOk(c, h, start, end, ctx, stop);
    ExitInnermost(c, h, start, ctx);
    assert BodyOf(c, h, h);
    ChainOnward(c, h, start, chain, dest, end, ctx, stop);
  }

  lemma {:induction false} ChainOnward(c: Cfg, p: BlockId, start: BlockId, chain: seq<BlockId>, dest: BlockId, end: Option<BlockId>,
                                       ctx: Option<LoopCtx>, stop: Option<BlockId>)
    requires Structurable(c) && Indexed(c) && TrampolineChain(c, start, chain, dest)
    requires RegionOk(c, p, end, ctx, stop) && IsLive(c, p) && end != Some(p)
    requires HeaderOf(c, p) || c.blocks[p].terminator.Jump? || c.blocks[p].terminator.Fallthrough?
    requires Edge(c.callerSucc, p, start) && RegionOk(c, start, end, ctx, stop) && IsLive(c, start)
    requires Onward(c, p, start, ctx, stop)
    ensures Onward(c, p, dest, ctx, stop)
    decreases |chain|
  {
    hide ValidCfg, HeaderExitLoops, RegionOk, HeaderOf, Innermost;
    if chain != [] {
      var next := TrampolineNext(c, start);
      TrampolineNotHeader(c, start);
      TrampolineNotEnd(c, p, start, end, ctx, stop);
      TrampolineNotStop(c, start, end, ctx, stop);
      OnlyStepOk(c, start, next, end, ctx, stop);
      assert Edge(c.callerSucc, start, next);
      StepOnward(c, start, next, end, ctx, stop);
      ChainOnward(c, start, next, chain[1..], dest, end, ctx, stop);
    }
  }

  // ── The walks of the classification ──────────────────────────────────────

  /** Trampolines go up. */
  lemma TrampolineUp(c: Cfg, b: BlockId, next: BlockId)
    requires Structurable(c) && Indexed(c) && Reached(c, b) && IsTrampoline(c, b) && c.successors[b] == [next]
    requires next < |c.blocks| && IsTrampoline(c, next)
    ensures Reached(c, next) && Rank(c, b) < Rank(c, next)
  {
    var _ := TrampolineNext(c, b);
    TrampolineNotHeader(c, next);
    assert Edge(c.callerSucc, b, next);
    ForwardEdge(c, b, next);
  }

  /** What post-dominates a block, as a set. */
  ghost function PostDoms(c: Cfg, b: BlockId): set<nat> {
    set e: nat | e < |c.blocks| && PostDom(c, e, b)
  }

  /** Enough fuel finds the end of the trampolines, which is as live as the
      start and post-dominated by no other blocks. */
  lemma {:induction false} CanonicalFound(c: Cfg, b: BlockId, fuel: nat)
    requires Structurable(c) && Indexed(c) && Reached(c, b) && IsLive(c, b)
    requires IsTrampoline(c, b) ==> |c.blocks| < fuel + Rank(c, b)
    ensures CanonicalEnd(c, b, fuel).Some?
    ensures var e := CanonicalEnd(c, b, fuel).value; Reached(c, e) && IsLive(c, e) && PostDoms(c, e) <= PostDoms(c, b)
    decreases fuel
  {
    hide ValidCfg, HeaderExitLoops, IsTrampoline, Index, PostDom;
    if IsTrampoline(c, b) {
      RankBound(c, b);
      var next := TrampolineNext(c, b);
      CallerOf(c, b);
      SuccessorInRange(c, b);
      assert c.successors[b] == [next] by {
        Sizes(c);
        OneSuccessor(c, b);
      }
      assert Edge(c.callerSucc, b, next);
      ReachedEdge(c, b, next);
      OnlyStepLive(c, b, next);
      if IsTrampoline(c, next) {
        TrampolineUp(c, b, next);
      }
      CanonicalFound(c, next, fuel - 1);
      TrampolinePostDoms(c, b, next);
    }
  }

  lemma OneSuccessor(c: Cfg, b: BlockId)
    requires Indexed(c) && b < |c.blocks| && IsTrampoline(c, b)
    ensures c.successors[b] == [c.successors[b][0]]
  {
  }

  lemma TrampolinePostDoms(c: Cfg, b: BlockId, next: BlockId)
    requires ValidCfg(c) && b < |c.callerSucc| && c.callerSucc[b] == [next] && IsLive(c, next) && next < |c.blocks|
    requires !IsExit(c.blocks[b].terminator)
    ensures PostDoms(c, next) <= PostDoms(c, b)
  {
    Sizes(c);
    var g := LiveSucc(c);
    forall e | e in PostDoms(c, next)
      ensures e in PostDoms(c, b)
    {
      forall p | ExitPath(g, c.blocks, p, b)
        ensures e in p
      {
        assert |p| > 1;
        assert Edge(g, p[0], p[0 + 1]);
        LiveEdge(c, b, p[1]);
        PathSuffix(g, p, b, p[|p| - 1], 1);
        assert ExitPath(g, c.blocks, p[1..], next);
      }
    }
  }

  /** A join is post-dominated by fewer blocks. */
  lemma JoinPostDoms(c: Cfg, u: BlockId, j: BlockId)
    requires Structurable(c) && Reached(c, u) && JoinAt(c, u) == Some(j) && !IsExit(c.blocks[u].terminator)
    ensures PostDoms(c, j) < PostDoms(c, u)
  {
    JoinFacts(c, u, j);
    Sizes(c);
    var g := LiveSucc(c);
    forall e | e in PostDoms(c, j)
      ensures e in PostDoms(c, u)
    {
      forall p | ExitPath(g, c.blocks, p, u)
        ensures e in p
      {
        var k := FirstIndex(p, j);
        PathSuffix(g, p, u, p[|p| - 1], k);
        assert ExitPath(g, c.blocks, p[k..], j);
      }
    }
    assert u in PostDoms(c, u) by {
      assert forall p :: ExitPath(g, c.blocks, p, u) ==> p[0] == u;
    }
    if u in PostDoms(c, j) {
      LiveReachesExit(c, j);
      PostDomAntisym(c, u, j);
    }
  }

  lemma {:induction false} ConvergenceFound(c: Cfg, b: BlockId, left: nat, fuel: nat)
    requires Structurable(c) && Indexed(c) && Reached(c, b) && IsLive(c, b)
    requires |PostDoms(c, b)| <= left && |c.blocks| < fuel
    ensures ConvergenceFrom(c, b, left, fuel).Some?
    decreases left
  {
    hide ValidCfg, HeaderExitLoops, IsTrampoline, Index, PostDom, PostDoms;
    if c.blocks[b].terminator.JumpIf? && c.postDominators.idom[b].Some? {
      var j := c.postDominators.idom[b].value;
      JoinFacts(c, b, j);
      JoinPostDoms(c, b, j);
      CanonicalFound(c, j, fuel);
      var next := CanonicalEnd(c, j, fuel).value;
      SmallerSet(PostDoms(c, next), PostDoms(c, b));
      ConvergenceFound(c, next, left - 1, fuel);
    }
  }

  lemma SmallerSet<T>(a: set<T>, b: set<T>)
    requires a < b
    ensures |a| < |b|
  {
    var x :| x in b && x !in a;
    SubsetCardinality(a, b - {x});
  }

  /** With more fuel than blocks the classification of a loop succeeds. */
  lemma LoopLeavesOnce(c: Cfg, i: nat, fuel: nat)
    requires Structurable(c) && Indexed(c) && i < |c.loops| && Reached(c, c.loops[i].header) && |c.blocks| < fuel
    ensures LeavesOnce(c, c.loops[i], fuel)
  {
    var l := c.loops[i];
    var h := l.header;
    var t := c.blocks[h].terminator;
    var e := ExitArm(c, l);
    CallerOf(c, h);
    assert t.thenBlock in Targets(t) && t.elseBlock in Targets(t);
    forall src: nat, dst: nat | IsExitEdge(c, l, src, dst)
      ensures dst == e
    {
      assert src == h;
    }
    assert Edge(c.callerSucc, h, e);
    ReachedEdge(c, h, e);
    CanonicalFound(c, e, fuel);
    var first := CanonicalEnd(c, e, fuel).value;
    PostDomsBound(c, first);
    ConvergenceFound(c, first, fuel, fuel);
  }

  lemma PostDomsBound(c: Cfg, b: BlockId)
    ensures |PostDoms(c, b)| <= |c.blocks|
  {
    SubsetCardinality(PostDoms(c, b), Below(|c.blocks|));
  }
}
