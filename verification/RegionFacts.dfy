/** What holds along a walk through a graph whose loops are left only from
    their headers. */
module RegionFacts {
  import opened Graphs
  import opened CfgTypes
  import opened DomTrees
  import opened Rooted
  import opened Loops
  import opened Views
  import opened Divergence
  import opened PostDominance
  import opened Rewrites
  import opened CfgBuild
  import opened StructureTree
  import opened Simulation
  import opened LoopShapes

  ghost function ProgramOf(c: Cfg): Program {
    Program(c.blocks, Diverging(c.procedures))
  }

  ghost predicate HeaderOf(c: Cfg, b: BlockId) {
    exists i :: 0 <= i < |c.loops| && c.loops[i].header == b
  }

  /** Every loop is left only from its header, and the header decides the exit
      by itself. */
  ghost predicate HeaderExitLoops(c: Cfg) {
    forall i :: 0 <= i < |c.loops| ==>
      && DecidesExit(c, c.loops[i])
      && forall src: nat, dst: nat :: IsExitEdge(c, c.loops[i], src, dst) ==> src == c.loops[i].header
  }

  /** A graph the structurer accepts and whose loops have that form. */
  ghost predicate Structurable(c: Cfg) {
    ValidCfg(c) && HeaderExitLoops(c)
  }

  ghost predicate Reached(c: Cfg, b: BlockId) {
    b < |c.blocks| && RootReach(c.callerSucc, Roots(c), b)
  }

  ghost predicate IsLive(c: Cfg, b: BlockId) {
    b !in c.divergentBlocks
  }

  ghost predicate PostDom(c: Cfg, d: BlockId, v: BlockId) {
    PostDominates(LiveSucc(c), c.blocks, d, v)
  }

  ghost predicate BodyOf(c: Cfg, h: BlockId, b: BlockId) {
    InLoop(c.callerSucc, Roots(c), h, b)
  }

  // ── Edges ────────────────────────────────────────────────────────────────

  lemma Sizes(c: Cfg)
    requires ValidCfg(c)
    ensures |c.blocks| == |c.successors| == |c.callerSucc| == |c.callerPred| == |c.predecessors| == |LiveSucc(c)|
    ensures |c.postDominators.idom| == |c.blocks| && |c.dominators.rpoIndex| == |c.blocks|
    ensures WellFormed(c.blocks) && c.successors == ComputeSuccessors(c.blocks)
    ensures InRange(c.callerSucc) && InRange(c.successors)
    ensures c.callerSucc == CallerView(c.blocks, c.successors, NonReturning(c.blocks))
  {
    SuccessorsInRange(c.blocks);
  }

  lemma ValidIndexed(c: Cfg)
    requires ValidCfg(c)
    ensures Indexed(c)
  {
    Sizes(c);
    forall i | 0 <= i < |c.loops|
      ensures c.loops[i].header < |c.blocks| && forall b :: b in c.loops[i].body ==> b < |c.blocks|
    {
      assert IsLoop(c.callerSucc, Roots(c), c.loops[i]);
    }
  }

  /** The caller's successors by terminator. */
  lemma CallerOf(c: Cfg, b: BlockId)
    requires ValidCfg(c) && b < |c.blocks|
    ensures |c.callerSucc| == |c.blocks|
    ensures var t := c.blocks[b].terminator;
            c.callerSucc[b] == if t.Call? then (if t.callee in NonReturning(c.blocks) then [] else [t.continuation]) else Targets(t)
    ensures forall t :: t in c.callerSucc[b] ==> t < |c.blocks|
  {
    Sizes(c);
    assert c.successors[b] == Targets(c.blocks[b].terminator);
  }

  lemma LiveEdge(c: Cfg, u: BlockId, v: BlockId)
    ensures Edge(LiveSucc(c), u, v) <==> Edge(c.callerSucc, u, v) && IsLive(c, v)
  {
  }

  lemma ReachedEdge(c: Cfg, u: BlockId, v: BlockId)
    requires ValidCfg(c) && Reached(c, u) && Edge(c.callerSucc, u, v)
    ensures Reached(c, v)
  {
    Sizes(c);
    EdgeInRange(c.callerSucc, u, v);
    var p :| RootPath(c.callerSucc, Roots(c), p, u);
    PathSnoc(c.callerSucc, p, p[0], u, v);
    assert RootPath(c.callerSucc, Roots(c), p + [v], v);
  }

  /** From a block that diverges but is no leaf, every successor diverges. */
  lemma DivergentStep(c: Cfg, u: BlockId, v: BlockId)
    requires ValidCfg(c) && !IsLive(c, u) && u !in Leaves(c.blocks, NonReturning(c.blocks))
    requires Edge(c.callerSucc, u, v)
    ensures !IsLive(c, v)
  {
    var leaves := Leaves(c.blocks, NonReturning(c.blocks));
    assert Diverges(c.callerSucc, leaves, u);
    var n: nat :| DivergesWithin(c.callerSucc, leaves, n, u);
    assert DivergesWithin(c.callerSucc, leaves, n - 1, v) && Diverges(c.callerSucc, leaves, v);
  }

  lemma AllDivergentSuccessors(c: Cfg, u: BlockId)
    requires ValidCfg(c) && u < |c.blocks| == |c.callerSucc| && c.callerSucc[u] != []
    requires forall s :: s in c.callerSucc[u] ==> !IsLive(c, s)
    ensures !IsLive(c, u)
  {
    var leaves := Leaves(c.blocks, NonReturning(c.blocks));
    forall s | s in c.callerSucc[u]
      ensures Diverges(c.callerSucc, leaves, s)
    {
      assert s in c.divergentBlocks;
    }
    SuccessorsDiverge(c.callerSucc, leaves, u);
  }

  /** A live block with successors has a live one. */
  lemma LiveStep(c: Cfg, u: BlockId) returns (v: BlockId)
    requires ValidCfg(c) && u < |c.blocks| == |c.callerSucc| && IsLive(c, u) && c.callerSucc[u] != []
    ensures Edge(c.callerSucc, u, v) && IsLive(c, v)
  {
    if forall s :: s in c.callerSucc[u] ==> !IsLive(c, s) {
      AllDivergentSuccessors(c, u);
    }
    v :| v in c.callerSucc[u] && IsLive(c, v);
  }

  lemma OnlyStepLive(c: Cfg, u: BlockId, v: BlockId)
    requires ValidCfg(c) && u < |c.blocks| == |c.callerSucc| && IsLive(c, u) && c.callerSucc[u] == [v]
    ensures IsLive(c, v)
  {
    var w := LiveStep(c, u);
  }

  /** A procedure whose entry traps has no returning block. */
  lemma NonReturningDiverges(c: Cfg, b: BlockId)
    requires ValidCfg(c) && b < |c.blocks| && c.blocks[b].terminator.Call?
    requires c.blocks[b].terminator.callee in NonReturning(c.blocks)
    ensures c.blocks[b].terminator.callee in Diverging(c.procedures)
  {
    Sizes(c);
    var e := c.blocks[b].terminator.callee;
    var i :| 0 <= i < |c.procedures| && c.procedures[i].entry == e;
    var p := c.procedures[i];
    assert ValidProcedure(c.blocks, c.successors, c.callerSucc, p);
    ReachRefl(c.callerSucc, e);
    assert e in p.body;
    if p.returnBlock.Some? {
      assert ExitIn(c.blocks, p.body, e) && ExitIn(c.blocks, p.body, p.returnBlock.value);
    }
  }

  /** A block that goes nowhere and neither returns nor stops always traps. */
  lemma DeadEndDiverges(c: Cfg, b: BlockId)
    requires ValidCfg(c) && b < |c.blocks| && b < |c.callerSucc| && c.callerSucc[b] == []
    requires var t := c.blocks[b].terminator; !t.Return? && !t.Stop? && !t.Unreachable?
    ensures !IsLive(c, b)
  {
    CallerOf(c, b);
    var leaves := Leaves(c.blocks, NonReturning(c.blocks));
    assert DivergesWithin(c.callerSucc, leaves, 0, b);
    assert Diverges(c.callerSucc, leaves, b);
  }

  /** A divergent block fails in the graph. */
  lemma DivergentBlockFails(c: Cfg, b: BlockId) returns (k: nat)
    requires ValidCfg(c) && !IsLive(c, b)
    ensures forall w: seq<bool> :: |w| >= k ==> FailsOn(ProgramOf(c), b, w, [])
  {
    Sizes(c);
    var g := ProgramOf(c);
    var leaves := Leaves(c.blocks, NonReturning(c.blocks));
    assert Diverges(c.callerSucc, leaves, b);
    k :| DivergesWithin(c.callerSucc, leaves, k, b);
    forall x: nat | x in leaves
      ensures x < |g.blocks| && FailingLeaf(g, g.blocks[x].terminator)
    {
      if c.blocks[x].terminator.Call? {
        NonReturningDiverges(c, x);
      }
    }
    forall x: nat | x < |c.callerSucc|
      ensures CallerStep(g, g.blocks[x].terminator, c.callerSucc[x])
    {
      CallerOf(c, x);
    }
    forall w: seq<bool> | |w| >= k
      ensures FailsOn(g, b, w, [])
    {
      DivergentFails(g, c.callerSucc, leaves, k, b, w);
    }
  }

  // ── Loops ────────────────────────────────────────────────────────────────

  lemma LoopAt(c: Cfg, h: BlockId) returns (i: nat)
    requires Structurable(c) && HeaderOf(c, h)
    ensures i < |c.loops| && c.loops[i].header == h
    ensures DecidesExit(c, c.loops[i]) && IsLoop(c.callerSucc, Roots(c), c.loops[i])
    ensures forall b: nat :: b in c.loops[i].body <==> b < |c.callerSucc| && BodyOf(c, h, b)
    ensures forall src: nat, dst: nat :: IsExitEdge(c, c.loops[i], src, dst) ==> src == h
  {
    i :| 0 <= i < |c.loops| && c.loops[i].header == h;
    assert IsLoop(c.callerSucc, Roots(c), c.loops[i]);
  }

  lemma HeaderIsJumpIf(c: Cfg, h: BlockId)
    requires Structurable(c) && HeaderOf(c, h)
    ensures h < |c.blocks| && c.blocks[h].terminator.JumpIf? && IsLive(c, h)
  {
    var i := LoopAt(c, h);
    var t := c.blocks[h].terminator;
    CallerOf(c, h);
    var exit := if t.thenBlock in c.loops[i].body then t.elseBlock else t.thenBlock;
    assert Edge(c.callerSucc, h, exit);
    if !IsLive(c, h) {
      DivergentStep(c, h, exit);
    }
  }

  lemma NoInnerExit(c: Cfg, i: nat, u: BlockId, v: BlockId)
    requires HeaderExitLoops(c) && i < |c.loops| && u != c.loops[i].header
    ensures !IsExitEdge(c, c.loops[i], u, v)
  {
  }

  /** Live edges from a body block other than the header stay in the body. */
  lemma StaysInBody(c: Cfg, h: BlockId, u: BlockId, v: BlockId)
    requires Structurable(c) && HeaderOf(c, h)
    requires BodyOf(c, h, u) && u != h && Edge(LiveSucc(c), u, v)
    ensures BodyOf(c, h, v)
  {
    hide HeaderExitLoops;
    var i := LoopAt(c, h);
    Sizes(c);
    LiveEdge(c, u, v);
    EdgeInRange(c.callerSucc, u, v);
    NoInnerExit(c, i, u, v);
  }

  /** A body block other than the header has a successor. */
  lemma BodyGoesOn(c: Cfg, h: BlockId, u: BlockId)
    requires ValidCfg(c) && BodyOf(c, h, u) && u != h && u < |c.callerSucc|
    ensures c.callerSucc[u] != []
  {
    var p, s :| BackEdge(c.callerSucc, Roots(c), s, h) && AvoidingPath(c.callerSucc, h, p, u, s);
    if |p| == 1 {
      assert Edge(c.callerSucc, u, h);
    } else {
      FirstEdge(c.callerSucc, p);
    }
  }

  lemma FirstEdge(g: Graph, p: seq<nat>)
    requires IsPath(g, p) && |p| > 1
    ensures p[0] < |g| && g[p[0]] != []
  {
    assert Edge(g, p[0], p[0 + 1]);
  }

  lemma ExitHasNoSuccessor(c: Cfg, u: BlockId)
    requires ValidCfg(c) && u < |c.blocks| && IsExit(c.blocks[u].terminator)
    ensures u < |c.callerSucc| && c.callerSucc[u] == []
  {
    CallerOf(c, u);
  }

  /** Every live path from a body block to an exit passes the header. */
  lemma {:induction false} HeaderOnExitPath(c: Cfg, h: BlockId, u: BlockId, p: seq<nat>)
    requires Structurable(c) && HeaderOf(c, h) && BodyOf(c, h, u)
    requires ExitPath(LiveSucc(c), c.blocks, p, u)
    ensures h in p
    decreases |p|
  {
    if u == h {
      assert p[0] == h;
    } else if |p| == 1 {
      ExitHasNoSuccessor(c, u);
      BodyGoesOn(c, h, u);
    } else {
      assert Edge(LiveSucc(c), p[0], p[0 + 1]);
      StaysInBody(c, h, u, p[1]);
      PathSuffix(LiveSucc(c), p, u, p[|p| - 1], 1);
      HeaderOnExitPath(c, h, p[1], p[1..]);
    }
  }

  lemma HeaderPostDominates(c: Cfg, h: BlockId, u: BlockId)
    requires Structurable(c) && HeaderOf(c, h) && BodyOf(c, h, u)
    ensures PostDom(c, h, u)
  {
    forall p | ExitPath(LiveSucc(c), c.blocks, p, u)
      ensures h in p
    {
      HeaderOnExitPath(c, h, u, p);
    }
  }

  // ── Post-dominance ───────────────────────────────────────────────────────

  /** A post-dominator of `u` other than `u` post-dominates its successors. */
  lemma PostDomStep(c: Cfg, j: BlockId, u: BlockId, v: BlockId)
    requires PostDom(c, j, u) && j != u && Edge(LiveSucc(c), u, v) && u < |LiveSucc(c)|
    ensures PostDom(c, j, v)
  {
    var g := LiveSucc(c);
    forall p | ExitPath(g, c.blocks, p, v)
      ensures j in p
    {
      PathCons(g, p, u, v, p[|p| - 1]);
      assert ExitPath(g, c.blocks, [u] + p, u);
      assert j in [u] + p;
    }
  }

  lemma PostDomAntisym(c: Cfg, a: BlockId, b: BlockId)
    requires ReachesExit(LiveSucc(c), c.blocks, b) && PostDom(c, a, b) && PostDom(c, b, a)
    ensures a == b
  {
    hide LiveSucc, ExitPath;
    var g := LiveSucc(c);
    var p :| ExitPath(g, c.blocks, p, b);
    ExitPathStart(g, c.blocks, p, b);
    var i := LastIndex(p, b);
    ExitSuffix(g, c.blocks, p, b, i);
    var q := p[i..];
    assert a in q;
    var k := FirstIndex(q, a);
    ExitSuffix(g, c.blocks, q, b, k);
    assert b in q[k..];
    var m := FirstIndex(q[k..], b);
    assert q[k + m] == p[i + k + m] == b;
    assert k == 0;
    ExitPathStart(g, c.blocks, q, b);
  }

  lemma ExitPathStart(g: Graph, blocks: seq<Block>, p: seq<nat>, v: nat)
    requires ExitPath(g, blocks, p, v)
    ensures |p| > 0 && p[0] == v
  {
  }

  lemma ExitSuffix(g: Graph, blocks: seq<Block>, p: seq<nat>, v: nat, i: nat)
    requires ExitPath(g, blocks, p, v) && i < |p|
    ensures ExitPath(g, blocks, p[i..], p[i])
  {
    PathSuffix(g, p, v, p[|p| - 1], i);
  }

  lemma PostDomTrans(c: Cfg, a: BlockId, b: BlockId, v: BlockId)
    requires PostDom(c, b, v) && PostDom(c, a, b)
    ensures PostDom(c, a, v)
  {
    hide LiveSucc, ExitPath;
    var g := LiveSucc(c);
    forall p | ExitPath(g, c.blocks, p, v)
      ensures a in p
    {
      assert b in p;
      var k := FirstIndex(p, b);
      ExitSuffix(g, c.blocks, p, v, k);
      assert a in p[k..];
    }
  }

  /** The only live successor of a block that does not end the body. */
  lemma OnlyLiveSuccessor(c: Cfg, u: BlockId, v: BlockId)
    requires u < |c.blocks| && !IsExit(c.blocks[u].terminator)
    requires forall x: nat :: Edge(LiveSucc(c), u, x) ==> x == v
    ensures PostDom(c, v, u)
  {
    forall p | ExitPath(LiveSucc(c), c.blocks, p, u)
      ensures v in p
    {
      assert |p| > 1;
      assert Edge(LiveSucc(c), p[0], p[0 + 1]);
    }
  }

  // ── What the classification of a loop passes ─────────────────────────────

  /** The block a test is passed to lies on every live path from the test. */
  lemma SkippedOnPaths(c: Cfg, l: NaturalLoop, a: BlockId, b: BlockId)
    requires ValidCfg(c) && Indexed(c) && a < |c.blocks| && c.blocks[a].terminator.JumpIf? && SkipTarget(c, l, a) == Some(b)
    ensures PostDom(c, b, a)
  {
    CallerOf(c, a);
    var t := c.blocks[a].terminator;
    if t.thenBlock in l.body && t.elseBlock in l.body {
      TableOnPaths(c, a);
    }
    hide ValidCfg;
    if !(t.thenBlock in l.body && t.elseBlock in l.body) {
      forall x: nat | Edge(LiveSucc(c), a, x)
        ensures x == b
      {
        LiveEdge(c, a, x);
      }
      OnlyLiveSuccessor(c, a, b);
    }
  }

  /** The effective header lies on every live path from the header. */
  lemma {:induction false} EffectiveOnPaths(c: Cfg, l: NaturalLoop, h: BlockId, b: BlockId, n: nat)
    requires ValidCfg(c) && Indexed(c) && SkipsTo(c, l, h, b, n)
    ensures PostDom(c, b, h)
    decreases n
  {
    hide ValidCfg, Indexed, PostDom, SkipTarget;
    if n == 0 {
      SelfOnPaths(c, h);
    } else {
      var a: nat :| a < |c.blocks| && c.blocks[a].terminator.JumpIf? && SkipTarget(c, l, a) == Some(b) && SkipsTo(c, l, h, a, n - 1);
      EffectiveOnPaths(c, l, h, a, n - 1);
      SkippedOnPaths(c, l, a, b);
      PostDomTrans(c, b, a, h);
    }
  }

  lemma SelfOnPaths(c: Cfg, b: BlockId)
    ensures PostDom(c, b, b)
  {
  }

  lemma TrampolineOnPaths(c: Cfg, b: BlockId)
    requires ValidCfg(c) && Indexed(c) && b < |c.blocks| && IsTrampoline(c, b)
    ensures c.successors[b] != [] && PostDom(c, c.successors[b][0], b)
  {
    Sizes(c);
    CallerOf(c, b);
    var v := c.successors[b][0];
    assert c.successors[b] == Targets(c.blocks[b].terminator);
    forall x: nat | Edge(LiveSucc(c), b, x)
      ensures x == v
    {
      LiveEdge(c, b, x);
    }
    OnlyLiveSuccessor(c, b, v);
  }

  lemma {:induction false} CanonicalOnPaths(c: Cfg, b: BlockId, fuel: nat)
    requires ValidCfg(c) && Indexed(c) && b < |c.blocks| && CanonicalEnd(c, b, fuel).Some?
    ensures PostDom(c, CanonicalEnd(c, b, fuel).value, b)
    decreases fuel
  {
    if !IsTrampoline(c, b) {
      SelfOnPaths(c, b);
    } else {
      TrampolineOnPaths(c, b);
      SuccessorInRange(c, b);
      var v := c.successors[b][0];
      assert v in c.successors[b];
      CanonicalOnPaths(c, v, fuel - 1);
      PostDomTrans(c, CanonicalEnd(c, b, fuel).value, v, b);
    }
  }

  lemma TableOnPaths(c: Cfg, b: BlockId)
    requires ValidCfg(c) && b < |c.blocks| && b < |c.postDominators.idom| && c.postDominators.idom[b].Some?
    ensures PostDom(c, c.postDominators.idom[b].value, b)
  {
    Sizes(c);
  }

  lemma {:induction false} ConvergenceFromOnPaths(c: Cfg, b: BlockId, left: nat, fuel: nat)
    requires ValidCfg(c) && Indexed(c) && b < |c.blocks| && ConvergenceFrom(c, b, left, fuel).Some?
    ensures PostDom(c, ConvergenceFrom(c, b, left, fuel).value, b)
    decreases left
  {
    hide ValidCfg, PostDom, CanonicalEnd;
    if !(c.blocks[b].terminator.JumpIf? && c.postDominators.idom[b].Some?) {
      SelfOnPaths(c, b);
    } else {
      var j := c.postDominators.idom[b].value;
      TableOnPaths(c, b);
      CanonicalOnPaths(c, j, fuel);
      var next := CanonicalEnd(c, j, fuel).value;
      ConvergenceFromOnPaths(c, next, left - 1, fuel);
      PostDomTrans(c, next, j, b);
      PostDomTrans(c, ConvergenceFrom(c, b, left, fuel).value, next, b);
    }
  }

  lemma ConvergenceOnPaths(c: Cfg, b: BlockId, fuel: nat)
    requires ValidCfg(c) && Indexed(c) && b < |c.blocks| && Convergence(c, b, fuel).Some?
    ensures PostDom(c, Convergence(c, b, fuel).value, b)
  {
    CanonicalOnPaths(c, b, fuel);
    var first := CanonicalEnd(c, b, fuel).value;
    ConvergenceFromOnPaths(c, first, fuel, fuel);
    PostDomTrans(c, Convergence(c, b, fuel).value, first, b);
  }

  /** The exits of an accepted loop meet: one block lies on every live path from
      any exit edge and from the exit destination. */
  lemma ExitsMeet(c: Cfg, s: LoopShape, fuel: nat) returns (x: BlockId)
    requires ValidCfg(c) && Indexed(c) && Converges(c, s, fuel)
    ensures PostDom(c, x, s.exitDest) && forall e :: e in s.exitEdges ==> PostDom(c, x, e.1)
  {
    hide PostDom, Convergence;
    x := Convergence(c, s.exitDest, fuel).value;
    ConvergenceOnPaths(c, s.exitDest, fuel);
    forall e | e in s.exitEdges
      ensures PostDom(c, x, e.1)
    {
      ConvergenceOnPaths(c, e.1, fuel);
    }
  }

  // ── Every live block can leave the body ──────────────────────────────────

  ghost function LiveReach(c: Cfg, x: BlockId): set<nat> {
    set y: nat | y < |c.blocks| && Reach(LiveSucc(c), x, y)
  }

  lemma LiveReachFacts(c: Cfg, x: BlockId, y: BlockId)
    requires ValidCfg(c) && Reached(c, x) && IsLive(c, x)
    requires y in LiveReach(c, x)
    ensures Reached(c, y) && IsLive(c, y)
    ensures LiveReach(c, y) <= LiveReach(c, x)
  {
    Sizes(c);
    var p :| PathFromTo(LiveSucc(c), p, x, y);
    LivePathReached(c, x, p);
    forall z | z in LiveReach(c, y)
      ensures z in LiveReach(c, x)
    {
      ReachTrans(LiveSucc(c), x, y, z);
    }
  }

  lemma {:induction false} LivePathReached(c: Cfg, x: BlockId, p: seq<nat>)
    requires ValidCfg(c) && Reached(c, x) && IsLive(c, x)
    requires IsPath(LiveSucc(c), p) && p[0] == x
    ensures forall i :: 0 <= i < |p| ==> Reached(c, p[i]) && IsLive(c, p[i])
    decreases |p|
  {
    if |p| > 1 {
      assert Edge(LiveSucc(c), p[0], p[0 + 1]);
      LiveEdge(c, x, p[1]);
      ReachedEdge(c, x, p[1]);
      PathSuffix(LiveSucc(c), p, x, p[|p| - 1], 1);
      LivePathReached(c, p[1], p[1..]);
      forall i | 0 <= i < |p|
        ensures Reached(c, p[i]) && IsLive(c, p[i])
      {
        if i > 0 {
          assert p[i] == p[1..][i - 1];
        }
      }
    }
  }

  lemma LivePathInCaller(c: Cfg, p: seq<nat>)
    requires ValidCfg(c) && IsPath(LiveSucc(c), p)
    ensures IsPath(c.callerSucc, p)
  {
    Sizes(c);
    forall i | 0 <= i < |p| - 1
      ensures Edge(c.callerSucc, p[i], p[i + 1])
    {
      LiveEdge(c, p[i], p[i + 1]);
      assert Edge(LiveSucc(c), p[i], p[i + 1]);
    }
  }

  /** Among the blocks reachable from `x` there is one that all it reaches reach
      back. */
  lemma {:induction false} Bottom(c: Cfg, x: BlockId) returns (y: BlockId)
    requires ValidCfg(c) && Reached(c, x) && IsLive(c, x)
    ensures y in LiveReach(c, x)
    ensures forall z :: z in LiveReach(c, y) ==> LiveReach(c, z) == LiveReach(c, y)
    decreases LiveReach(c, x)
  {
    Sizes(c);
    ReachRefl(LiveSucc(c), x);
    if z :| z in LiveReach(c, x) && LiveReach(c, z) != LiveReach(c, x) {
      LiveReachFacts(c, x, z);
      y := Bottom(c, z);
    } else {
      y := x;
    }
  }

  /** The member of a non-empty set of reached blocks with the least number. */
  lemma {:induction false} Lowest(c: Cfg, s: set<nat>) returns (m: BlockId)
    requires ValidCfg(c) && s != {}
    requires forall z :: z in s ==> Reached(c, z)
    ensures m in s
    ensures forall z :: z in s && z < |c.dominators.rpoIndex| ==>
              Index(c.dominators.rpoIndex, m) <= Index(c.dominators.rpoIndex, z)
    decreases |s|
  {
    m :| m in s;
    if s != {m} {
      var k := Lowest(c, s - {m});
      if Index(c.dominators.rpoIndex, k) < Index(c.dominators.rpoIndex, m) {
        m := k;
      }
    }
  }

  /** The last edge of a path to the block with the least number is a back
      edge. */
  lemma EntersLowest(c: Cfg, u: BlockId, m: BlockId)
    requires ValidCfg(c) && Reached(c, u) && Reached(c, m) && Edge(c.callerSucc, u, m)
    requires Index(c.dominators.rpoIndex, m) <= Index(c.dominators.rpoIndex, u)
    ensures BackEdge(c.callerSucc, Roots(c), u, m) && HeaderOf(c, m)
  {
    Sizes(c);
    assert BackEdge(c.callerSucc, Roots(c), u, m);
    assert IsHeader(c.callerSucc, Roots(c), m);
  }

  lemma GoesOn(c: Cfg, u: BlockId)
    requires ValidCfg(c) && Reached(c, u) && IsLive(c, u) && !IsExit(c.blocks[u].terminator)
    ensures u < |c.callerSucc| && c.callerSucc[u] != []
  {
    CallerOf(c, u);
    var leaves := Leaves(c.blocks, NonReturning(c.blocks));
    if u in leaves {
      assert DivergesWithin(c.callerSucc, leaves, 0, u);
      assert Diverges(c.callerSucc, leaves, u);
      assert false;
    }
  }

  /** A block of the bottom component has a path back to the lowest block `m`
      whose last edge is a back edge and which passes `m` only at its end. */
  lemma ReturnsToLowest(c: Cfg, y: BlockId, m: BlockId, z: BlockId) returns (p: seq<nat>, u: BlockId)
    requires ValidCfg(c) && Reached(c, y) && IsLive(c, y)
    requires forall x :: x in LiveReach(c, y) ==> LiveReach(c, x) == LiveReach(c, y)
    requires m in LiveReach(c, y) && z in LiveReach(c, y) && z != m
    requires forall x :: x in LiveReach(c, y) && x < |c.dominators.rpoIndex| ==>
               Index(c.dominators.rpoIndex, m) <= Index(c.dominators.rpoIndex, x)
    ensures BackEdge(c.callerSucc, Roots(c), u, m) && HeaderOf(c, m)
    ensures AvoidingPath(c.callerSucc, m, p, z, u)
  {
    Sizes(c);
    var g := LiveSucc(c);
    assert m in LiveReach(c, z);
    var q :| PathFromTo(g, q, z, m);
    var k := FirstIndex(q, m);
    assert k > 0;
    u := q[k - 1];
    PathPrefix(g, q, z, m, k - 1);
    p := q[..k];
    assert p == q[..k - 1 + 1];
    assert Edge(g, q[k - 1], q[k - 1 + 1]);
    LiveEdge(c, u, m);
    LiveReachFacts(c, y, z);
    LiveReachFacts(c, y, m);
    assert u in LiveReach(c, z);
    LiveReachFacts(c, z, u);
    EntersLowest(c, u, m);
    LivePathInCaller(c, p);
  }

  /** Every live block that is reached reaches an exit along live edges. */
  lemma LiveReachesExit(c: Cfg, x: BlockId)
    requires Structurable(c) && Reached(c, x) && IsLive(c, x)
    ensures ReachesExit(LiveSucc(c), c.blocks, x)
  {
    Sizes(c);
    var y := Bottom(c, x);
    LiveReachFacts(c, x, y);
    ReachRefl(LiveSucc(c), y);
    forall z | z in LiveReach(c, y)
      ensures Reached(c, z)
    {
      LiveReachFacts(c, y, z);
    }
    assert y in LiveReach(c, y);
    var m := Lowest(c, LiveReach(c, y));
    if e: nat :| e in LiveReach(c, x) && IsExit(c.blocks[e].terminator) {
      var p :| PathFromTo(LiveSucc(c), p, x, e);
      assert ExitPath(LiveSucc(c), c.blocks, p, x);
    } else {
      LiveReachFacts(c, x, m);
      NoBottomWithoutExit(c, y, m);
    }
  }

  lemma NoBottomWithoutExit(c: Cfg, y: BlockId, m: BlockId)
    requires Structurable(c) && Reached(c, y) && IsLive(c, y)
    requires forall x :: x in LiveReach(c, y) ==> LiveReach(c, x) == LiveReach(c, y)
    requires m in LiveReach(c, y)
    requires forall x :: x in LiveReach(c, y) && x < |c.dominators.rpoIndex| ==>
               Index(c.dominators.rpoIndex, m) <= Index(c.dominators.rpoIndex, x)
    ensures exists e: nat :: e in LiveReach(c, y) && IsExit(c.blocks[e].terminator)
  {
    LiveReachFacts(c, y, m);
    if !IsExit(c.blocks[m].terminator) {
      Sizes(c);
      GoesOn(c, m);
      var s := LiveStep(c, m);
      ReachableStep(c, y, m, s);
      if s != m {
        var _, _ := ReturnsToLowest(c, y, m, s);
      } else {
        EntersLowest(c, m, m);
      }
      hide LiveReach, ValidCfg, HeaderExitLoops, RootReach, Index;
      LowestNotHeader(c, y, m);
    }
  }

  /** A lowest block is not a header: its exit arm would lie in its own loop. */
  lemma LowestNotHeader(c: Cfg, y: BlockId, m: BlockId)
    requires Structurable(c) && Reached(c, y) && IsLive(c, y) && m < |c.blocks|
    requires forall x :: x in LiveReach(c, y) ==> LiveReach(c, x) == LiveReach(c, y)
    requires m in LiveReach(c, y)
    requires forall x :: x in LiveReach(c, y) && x < |c.dominators.rpoIndex| ==>
               Index(c.dominators.rpoIndex, m) <= Index(c.dominators.rpoIndex, x)
    ensures !HeaderOf(c, m)
  {
    if HeaderOf(c, m) {
      var i := LoopAt(c, m);
      var t := c.blocks[m].terminator;
      var exit := if t.thenBlock in c.loops[i].body then t.elseBlock else t.thenBlock;
      CallerOf(c, m);
      ReachableStep(c, y, m, exit);
      assert BodyOf(c, m, m);
      var _, _ := ReturnsToLowest(c, y, m, exit);
    }
  }

  lemma ReachableStep(c: Cfg, y: BlockId, m: BlockId, s: BlockId)
    requires ValidCfg(c) && m in LiveReach(c, y) && Edge(c.callerSucc, m, s) && IsLive(c, s)
    ensures s in LiveReach(c, y)
  {
    Sizes(c);
    LiveEdge(c, m, s);
    EdgeInRange(c.callerSucc, m, s);
    ReachEdge(LiveSucc(c), y, m, s);
  }
}
