/** Loops with an escape flag whose tests all lead back to the header or out of
    the loop: what the walk through their bodies builds. */
module TailBreaks {
  import opened Graphs
  import opened CfgTypes
  import opened CfgBuild
  import opened StructureTree
  import opened EscapeFlags
  import opened Simulation
  import opened LoopShapes
  import opened RegionFacts
  import opened RegionWalk
  import opened FlaggedLoops

  // ── The loops ────────────────────────────────────────────────────────────

  /** The loop of a context with a flag; `inner` are its blocks other than the
      header. */
  ghost function FrameOf(ctx: LoopCtx, inner: set<BlockId>): Frame
    requires ctx.escapeFlag.Some?
  {
    Frame(ctx.header, inner, ctx.exitDest, ctx.escapeFlag.value)
  }

  /** The blocks a body can come to along live edges before it is at the header
      again or at the exit. */
  ghost function InnerOf(c: Cfg, start: BlockId, header: BlockId, exit: BlockId): set<BlockId> {
    set b: nat | b < |c.blocks| && Between(c, start, header, exit, b)
  }

  ghost predicate Between(c: Cfg, start: BlockId, header: BlockId, exit: BlockId, b: BlockId) {
    exists p :: PathFromTo(LiveSucc(c), p, start, b) && header !in p && exit !in p
  }

  /** An assertion: the arm that always traps is entered only here. */
  ghost predicate Asserts(c: Cfg, b: BlockId, t: Terminator)
    requires t.JumpIf?
  {
    && IsLive(c, t.thenBlock) && !IsLive(c, t.elseBlock)
    && t.elseBlock < |c.predecessors| && c.predecessors[t.elseBlock] == [b]
  }

  /** The block heads no loop and does not end the body, and a test in it is an
      assertion or joins at the header or at the exit. */
  ghost predicate Plain(c: Cfg, header: BlockId, exit: BlockId, b: BlockId)
    requires b < |c.blocks|
  {
    && !HeaderOf(c, b)
    && match c.blocks[b].terminator
       case Jump(_) => true
       case Fallthrough(_) => true
       case Call(callee, _) => callee !in ProgramOf(c).diverging
       case JumpIf(_, x, y) =>
         || Asserts(c, b, c.blocks[b].terminator)
         || (IsLive(c, x) && IsLive(c, y) && (JoinAt(c, b) == Some(header) || JoinAt(c, b) == Some(exit)))
       case _ => false
  }

  /** Every test of the body leads back to the header or out of the loop. */
  ghost predicate TailTests(c: Cfg, start: BlockId, header: BlockId, exit: BlockId) {
    && IsLive(c, start) && IsLive(c, header) && IsLive(c, exit) && start != exit && header != exit
    && forall b :: b in InnerOf(c, start, header, exit) ==> Plain(c, header, exit, b)
  }

  /** What the walk through such a body relies on. */
  ghost predicate TailBody(c: Cfg, f: Frame) {
    && ValidCfg(c) && f.header !in f.inner && f.exit !in f.inner && f.exit != f.header && IsLive(c, f.exit)
    && forall b :: b in f.inner ==>
         && b < |c.blocks| && IsLive(c, b) && Plain(c, f.header, f.exit, b)
         && forall v: nat :: Edge(LiveSucc(c), b, v) ==> v in f.inner + {f.header, f.exit}
  }

  lemma BetweenLive(c: Cfg, start: BlockId, header: BlockId, exit: BlockId, b: BlockId)
    requires ValidCfg(c) && IsLive(c, start) && Between(c, start, header, exit, b)
    ensures IsLive(c, b)
  {
    var p :| PathFromTo(LiveSucc(c), p, start, b) && header !in p && exit !in p;
    if |p| > 1 {
      assert Edge(LiveSucc(c), p[|p| - 2], p[|p| - 2 + 1]);
      LiveEdge(c, p[|p| - 2], b);
    }
  }

  lemma BetweenStep(c: Cfg, start: BlockId, header: BlockId, exit: BlockId, b: BlockId, v: BlockId)
    requires ValidCfg(c) && b in InnerOf(c, start, header, exit) && Edge(LiveSucc(c), b, v)
    ensures v in InnerOf(c, start, header, exit) + {header, exit}
  {
    Sizes(c);
    LiveEdge(c, b, v);
    EdgeInRange(c.callerSucc, b, v);
    if v != header && v != exit {
      var p :| PathFromTo(LiveSucc(c), p, start, b) && header !in p && exit !in p;
      PathSnoc(LiveSucc(c), p, start, b, v);
      assert Between(c, start, header, exit, v);
    }
  }

  lemma EdgeInRange(g: Graph, u: nat, v: nat)
    requires InRange(g) && Edge(g, u, v)
    ensures v < |g|
  {
  }

  lemma TailBodyOf(c: Cfg, start: BlockId, header: BlockId, exit: BlockId, slot: nat)
    requires ValidCfg(c) && TailTests(c, start, header, exit) && start < |c.blocks|
    ensures var f := Frame(header, InnerOf(c, start, header, exit), exit, slot); TailBody(c, f) && start in f.inner + {f.header}
  {
    hide Plain, ValidCfg;
    var inner := InnerOf(c, start, header, exit);
    forall b | b in inner
      ensures IsLive(c, b) && forall v: nat :: Edge(LiveSucc(c), b, v) ==> v in inner + {header, exit}
    {
      BetweenLive(c, start, header, exit, b);
      forall v: nat | Edge(LiveSucc(c), b, v)
        ensures v in inner + {header, exit}
      {
        BetweenStep(c, start, header, exit, b, v);
      }
    }
    Sizes(c);
    if start != header {
      assert PathFromTo(LiveSucc(c), [start], start, start);
      assert Between(c, start, header, exit, start);
    }
  }

  /** The arm by which the header leaves is not in the body: it is the exit, or a
      trampoline that only the header leads to. */
  lemma LeavingArmApart(c: Cfg, l: NaturalLoop, s: LoopShape)
    requires ValidCfg(c) && Indexed(c) && FollowsHeader(c, l, s) && s.effectiveHeader == l.header && l.header in l.body
    ensures Outside(c.blocks[l.header].terminator, s.condition.value.polarity) !in InnerOf(c, s.bodyEntry, l.header, s.exitDest) + {l.header}
  {
    var h := l.header;
    var t := c.blocks[h].terminator;
    var arm := Outside(t, s.condition.value.polarity);
    if arm in InnerOf(c, s.bodyEntry, h, s.exitDest) {
      var p :| PathFromTo(LiveSucc(c), p, s.bodyEntry, arm) && h !in p && s.exitDest !in p;
      assert arm in p;
      ChainStart(c, arm, s.exitPrefix, s.exitDest);
      assert |p| > 1;
      var u := p[|p| - 2];
      assert Edge(LiveSucc(c), u, p[|p| - 2 + 1]);
      LiveEdge(c, u, arm);
      BothArms(c, h);
      OnlyPredecessor(c, h, u, arm);
    }
  }

  lemma ChainStart(c: Cfg, a: BlockId, chain: seq<BlockId>, end: BlockId)
    requires Indexed(c) && TrampolineChain(c, a, chain, end) && a != end
    ensures a < |c.callerPred| && |c.callerPred[a]| == 1
  {
  }

  /** The header enters the body and leaves it by another arm. */
  lemma ShapeEntersBody(c: Cfg, l: NaturalLoop, s: LoopShape, slot: nat)
    requires ValidCfg(c) && Indexed(c) && ValidShape(c, l, s) && s.effectiveHeader == l.header && l.header in l.body
    requires TailTests(c, s.bodyEntry, l.header, s.exitDest)
    ensures EntersBody(ProgramOf(c), Frame(l.header, InnerOf(c, s.bodyEntry, l.header, s.exitDest), s.exitDest, slot), s.condition, s.bodyEntry)
  {
    hide ValidCfg, Indexed, IsExitEdge, TrampolineChain, HeaderOf, Plain;
    var f := Frame(l.header, InnerOf(c, s.bodyEntry, l.header, s.exitDest), s.exitDest, slot);
    TailBodyOf(c, s.bodyEntry, l.header, s.exitDest, slot);
    assert f.header !in f.inner && f.exit !in f.inner by {
      hide TailTests;
    }
    hide InnerOf, TailTests, TailBody;
    if c.blocks[l.header].terminator.JumpIf? {
      LeavingArmApart(c, l, s);
    }
  }

  // ── The walk ─────────────────────────────────────────────────────────────

  /** The nodes go from `b` to `v` through the loop; only at the header they may
      have broken out on the way. */
  ghost predicate Steps(c: Cfg, f: Frame, b: BlockId, v: BlockId, nodes: seq<StructureNode>) {
    && v in f.inner + {f.header, f.exit}
    && BodyIterates(ProgramOf(c), nodes, b, v, f, v == f.header) && FlagsAtTail(nodes, v == f.header)
  }

  lemma StepsBegin(c: Cfg, f: Frame, b: BlockId)
    requires b in f.inner + {f.header, f.exit}
    ensures Steps(c, f, b, b, [])
  {
    IteratesNothing(ProgramOf(c), b, f, b == f.header);
  }

  lemma StepsOn(c: Cfg, f: Frame, entry: BlockId, b: BlockId, v: BlockId, nodes: seq<StructureNode>, more: seq<StructureNode>)
    requires Steps(c, f, entry, b, nodes) && b != f.header && Steps(c, f, b, v, more) && f.exit !in f.inner
    ensures Steps(c, f, entry, v, nodes + more)
  {
    IteratesThen(ProgramOf(c), nodes, more, entry, b, v, f, v == f.header);
    hide BodyIterates;
    BreakFree(nodes, more, v == f.header);
  }

  lemma BreakFree(a: seq<StructureNode>, b: seq<StructureNode>, tail: bool)
    requires FlagsAtTail(a, false) && FlagsAtTail(b, tail)
    ensures FlagsAtTail(a + b, tail)
  {
    forall i | 0 <= i < |a + b|
      ensures var isTail := tail && i == |a + b| - 1;
              match (a + b)[i]
              case SetEscapeFlag(_) => isTail
              case IfThenElse(_, _, x, y) => FlagsAtTail(x, isTail) && FlagsAtTail(y, isTail)
              case _ => true
    {
      if i < |a| {
        assert (a + b)[i] == a[i];
        if a[i].IfThenElse? {
          NoBreaks(a[i].thenBranch, tail && i == |a + b| - 1);
          NoBreaks(a[i].elseBranch, tail && i == |a + b| - 1);
        }
      } else {
        assert (a + b)[i] == b[i - |a|];
      }
    }
  }

  lemma {:induction false} NoBreaks(nodes: seq<StructureNode>, tail: bool)
    requires FlagsAtTail(nodes, false)
    ensures FlagsAtTail(nodes, tail)
  {
    forall i | 0 <= i < |nodes| && nodes[i].IfThenElse?
      ensures FlagsAtTail(nodes[i].thenBranch, tail && i == |nodes| - 1) && FlagsAtTail(nodes[i].elseBranch, tail && i == |nodes| - 1)
    {
      NoBreaks(nodes[i].thenBranch, tail && i == |nodes| - 1);
      NoBreaks(nodes[i].elseBranch, tail && i == |nodes| - 1);
    }
  }

  /** Where the walk meets the exit it breaks. */
  lemma StepsBreak(c: Cfg, f: Frame, entry: BlockId, nodes: seq<StructureNode>)
    requires Steps(c, f, entry, f.exit, nodes) && f.exit !in f.inner && f.exit != f.header
    ensures Steps(c, f, entry, f.header, nodes + [SetEscapeFlag(f.slot)])
  {
    IteratesBreak(ProgramOf(c), f.header, f);
    IteratesThen(ProgramOf(c), nodes, [SetEscapeFlag(f.slot)], entry, f.exit, f.header, f, true);
    hide BodyIterates;
    BreakFree(nodes, [SetEscapeFlag(f.slot)], true);
  }

  /** A single successor is inside, the header or the exit. */
  lemma OnlyStepInside(c: Cfg, f: Frame, b: BlockId, v: BlockId)
    requires TailBody(c, f) && b in f.inner && b < |c.callerSucc| && c.callerSucc[b] == [v]
    ensures v in f.inner + {f.header, f.exit}
  {
    Sizes(c);
    OnlyStepLive(c, b, v);
    LiveEdge(c, b, v);
    assert Edge(c.callerSucc, b, v);
  }

  lemma LeafSteps(c: Cfg, f: Frame, b: BlockId, v: BlockId, nodes: seq<StructureNode>)
    requires v in f.inner + {f.header, f.exit} && BodyIterates(ProgramOf(c), nodes, b, v, f, false)
    requires forall i :: 0 <= i < |nodes| ==> !nodes[i].IfThenElse? && !nodes[i].SetEscapeFlag?
    ensures Steps(c, f, b, v, nodes)
  {
    MayBreak(ProgramOf(c), nodes, b, v, f);
  }

  lemma MayBreak(g: Program, nodes: seq<StructureNode>, b: BlockId, v: BlockId, f: Frame)
    requires BodyIterates(g, nodes, b, v, f, false)
    ensures BodyIterates(g, nodes, b, v, f, true)
  {
    forall w: seq<bool>, flags: set<nat> | f.slot !in flags
      ensures Iterates(g, g.RunTree(nodes, w, flags), b, v, f, true, w, flags)
    {
      assert Iterates(g, g.RunTree(nodes, w, flags), b, v, f, false, w, flags);
    }
  }

  lemma StepJump(c: Cfg, f: Frame, b: BlockId, v: BlockId)
    requires TailBody(c, f) && b in f.inner && b < |c.blocks| && (c.blocks[b].terminator == Jump(v) || c.blocks[b].terminator == Fallthrough(v))
    ensures Steps(c, f, b, v, [Linear(b)])
  {
    CallerOf(c, b);
    OnlyStepInside(c, f, b, v);
    IteratesJump(ProgramOf(c), b, v, f);
    LeafSteps(c, f, b, v, [Linear(b)]);
  }

  lemma StepCall(c: Cfg, f: Frame, b: BlockId, callee: BlockId, v: BlockId)
    requires TailBody(c, f) && b in f.inner && b < |c.blocks| && c.blocks[b].terminator == Call(callee, v)
    ensures Steps(c, f, b, v, [Linear(b), CallNode(callee)]) && callee !in ProgramOf(c).diverging
  {
    CallerOf(c, b);
    if callee in NonReturning(c.blocks) {
      NonReturningDiverges(c, b);
    }
    OnlyStepInside(c, f, b, v);
    IteratesCall(ProgramOf(c), b, callee, v, f);
    LeafSteps(c, f, b, v, [Linear(b), CallNode(callee)]);
  }

  /** A block that always traps never comes to a block that does not. */
  lemma {:induction false} DivergentNeverAt(c: Cfg, b: BlockId, w: seq<bool>, x: BlockId, n: nat)
    requires ValidCfg(c) && b < |c.blocks| && !IsLive(c, b) && IsLive(c, x)
    ensures ProgramOf(c).Walk(n, b, w).end.Running? ==> ProgramOf(c).Walk(n, b, w).end.at != x
    decreases n
  {
    var g := ProgramOf(c);
    if n > 0 && g.Walk(n, b, w).end.Running? {
      var v, rest := DivergentStepTo(c, b, w, n);
      hide ValidCfg;
      DivergentNeverAt(c, v, rest, x, n - 1);
    }
  }

  lemma DivergentStepTo(c: Cfg, b: BlockId, w: seq<bool>, n: nat) returns (v: BlockId, rest: seq<bool>)
    requires ValidCfg(c) && b < |c.blocks| && !IsLive(c, b) && n > 0 && ProgramOf(c).Walk(n, b, w).end.Running?
    ensures v < |c.blocks| && !IsLive(c, v)
    ensures ProgramOf(c).Walk(n, b, w).end == ProgramOf(c).Walk(n - 1, v, rest).end
  {
    Sizes(c);
    CallerOf(c, b);
    var t := c.blocks[b].terminator;
    v := if t.Call? then t.continuation else if t.JumpIf? then (if w[0] then t.thenBlock else t.elseBlock) else t.target;
    rest := if t.JumpIf? then w[1..] else w;
    if t.Call? && t.callee in NonReturning(c.blocks) {
      NonReturningDiverges(c, b);
    }
    assert Edge(c.callerSucc, b, v);
    hide ValidCfg;
    DivergentStep(c, b, v);
  }

  lemma NeverAtLive(c: Cfg, b: BlockId, x: BlockId)
    requires ValidCfg(c) && b < |c.blocks| && !IsLive(c, b) && IsLive(c, x)
    ensures forall w: seq<bool> :: NeverAt(ProgramOf(c), b, w, x)
  {
    hide ValidCfg;
    var g := ProgramOf(c);
    forall w: seq<bool>
      ensures NeverAt(g, b, w, x)
    {
      forall n: nat | g.Walk(n, b, w).end.Running?
        ensures g.Walk(n, b, w).end.at != x
      {
        DivergentNeverAt(c, b, w, x, n);
      }
    }
  }

  lemma ThenInside(c: Cfg, f: Frame, b: BlockId, t: Terminator)
    requires TailBody(c, f) && b in f.inner && b < |c.blocks| && c.blocks[b].terminator == t && t.JumpIf? && IsLive(c, t.thenBlock)
    ensures ValidCfg(c) && b < |c.blocks| && t.elseBlock < |c.blocks| && IsLive(c, f.exit) && f.exit !in f.inner
    ensures t.thenBlock in f.inner + {f.header, f.exit}
  {
    hide ValidCfg;
    CallerOf(c, b);
    BothArms(c, b);
    LiveEdge(c, b, t.thenBlock);
  }

  lemma StepAssert(c: Cfg, f: Frame, b: BlockId, t: Terminator)
    requires TailBody(c, f) && b in f.inner && b < |c.blocks| && c.blocks[b].terminator == t && t.JumpIf?
    requires IsLive(c, t.thenBlock) && !IsLive(c, t.elseBlock)
    ensures Steps(c, f, b, t.thenBlock, [Linear(b), BoolAssert(b, t.condition)])
  {
    ThenInside(c, f, b, t);
    hide *;
    AssertIterates(c, f, b, t);
    LeafSteps(c, f, b, t.thenBlock, [Linear(b), BoolAssert(b, t.condition)]);
  }

  lemma AssertIterates(c: Cfg, f: Frame, b: BlockId, t: Terminator)
    requires ValidCfg(c) && b < |c.blocks| && b in f.inner && f.exit !in f.inner && c.blocks[b].terminator == t && t.JumpIf?
    requires t.elseBlock < |c.blocks| && !IsLive(c, t.elseBlock) && IsLive(c, f.exit)
    ensures BodyIterates(ProgramOf(c), [Linear(b), BoolAssert(b, t.condition)], b, t.thenBlock, f, false)
  {
    hide ValidCfg, FailsOn, NeverAt, BodyIterates;
    var k := DivergentBlockFails(c, t.elseBlock);
    NeverAtLive(c, t.elseBlock, f.exit);
    IteratesAssert(ProgramOf(c), b, t, k, f);
  }

  lemma ArmsInside(c: Cfg, f: Frame, b: BlockId, t: Terminator)
    requires TailBody(c, f) && b in f.inner && b < |c.blocks| && c.blocks[b].terminator == t && t.JumpIf? && IsLive(c, t.thenBlock) && IsLive(c, t.elseBlock)
    ensures t.thenBlock in f.inner + {f.header, f.exit} && t.elseBlock in f.inner + {f.header, f.exit}
  {
    BothArms(c, b);
    LiveEdge(c, b, t.thenBlock);
    LiveEdge(c, b, t.elseBlock);
  }

  /** Both arms of a test run to the header, or break. */
  lemma StepIf(c: Cfg, f: Frame, b: BlockId, t: Terminator, thenBranch: seq<StructureNode>, elseBranch: seq<StructureNode>)
    requires TailBody(c, f) && b in f.inner && b < |c.blocks| && c.blocks[b].terminator == t && t.JumpIf?
    requires Steps(c, f, t.thenBlock, f.header, thenBranch) && Steps(c, f, t.elseBlock, f.header, elseBranch)
    ensures Steps(c, f, b, f.header, [Linear(b), IfThenElse(b, t.condition, thenBranch, elseBranch)])
  {
    IteratesIf(ProgramOf(c), b, t, thenBranch, elseBranch, f.header, f, true);
  }

  // ── The loop ─────────────────────────────────────────────────────────────

  /** The loop node agrees with the graph on exactly the outcomes on which the
      graph does not break. */
  ghost predicate LoopAgrees(g: Program, f: Frame, condition: Option<LoopCondition>, body: seq<StructureNode>)
    requires f.header < |g.blocks| && (condition.Some? ==> g.blocks[f.header].terminator.JumpIf?)
  {
    forall w: seq<bool>, flags: set<nat> :: f.slot !in flags ==>
      var r := RunNode(g.diverging, BreakableLoop(f, condition, body), w, flags);
      && (Keeps(g, r, f, condition, w, flags) <==> !Breaks(g, f, w))
      && (Breaks(g, f, w) ==> Retests(g, r, f, condition, w, flags) && !Follows(g, f.header, w, r.trace))
      && (r.end.Finished? ==> (f.slot in r.end.flags <==> Breaks(g, f, w)))
  }

  lemma IteratingLoopAgrees(g: Program, f: Frame, condition: Option<LoopCondition>, body: seq<StructureNode>, start: BlockId)
    requires EntersBody(g, f, condition, start) && BodyIterates(g, body, start, f.header, f, true)
    ensures LoopAgrees(g, f, condition, body)
  {
    hide RunNode, Breaks, BodyIterates, Keeps, Retests, Follows;
    forall w: seq<bool>, flags: set<nat> | f.slot !in flags
      ensures var r := RunNode(g.diverging, BreakableLoop(f, condition, body), w, flags);
              && (Keeps(g, r, f, condition, w, flags) <==> !Breaks(g, f, w))
              && (Breaks(g, f, w) ==> Retests(g, r, f, condition, w, flags) && !Follows(g, f.header, w, r.trace))
              && (r.end.Finished? ==> (f.slot in r.end.flags <==> Breaks(g, f, w)))
    {
      AgreesUnlessBroken(g, f, condition, body, start, w, flags);
      FlaggedRuns(g, f, condition, body, start, w, flags);
    }
  }
}
