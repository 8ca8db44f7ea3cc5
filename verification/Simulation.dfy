/** When a stretch of the tree does what the graph does between two places, and
    how such stretches compose. */
module Simulation {
  import opened Graphs
  import opened CfgTypes
  import opened Views
  import opened Divergence
  import opened Rewrites
  import opened StructureTree

  /** Where the graph stands when the stretch has run: at a block, out of the
      body, or nowhere, because the stretch always fails. */
  datatype Exit = At(block: BlockId) | Leave | Never

  /** The blocks of a body and the procedures whose calls fail. */
  datatype Program = Program(blocks: seq<Block>, diverging: set<BlockId>) {
    function Walk(n: nat, b: BlockId, w: seq<bool>): GraphRun {
      StructureTree.Walk(blocks, diverging, n, b, w)
    }

    function RunTree(nodes: seq<StructureNode>, w: seq<bool>, flags: set<nat>): Run {
      RunSeq(diverging, nodes, w, flags)
    }
  }

  ghost predicate WalksTo(g: Program, b: BlockId, w: seq<bool>, trace: seq<Event>, end: GraphEnd) {
    exists n: nat :: g.Walk(n, b, w) == GraphRun(trace, end)
  }

  /** The graph fails, after at least the events of `trace`. */
  ghost predicate FailsOn(g: Program, b: BlockId, w: seq<bool>, trace: seq<Event>) {
    exists n: nat :: g.Walk(n, b, w).end.Trapped? && trace <= g.Walk(n, b, w).trace
  }

  ghost predicate FailsWithin(g: Program, b: BlockId, w: seq<bool>, trace: seq<Event>, k: nat) {
    forall more: seq<bool> :: |more| >= k ==> FailsOn(g, b, w + more, trace)
  }

  /** The graph fails on `w` and any long enough supply of further outcomes. */
  ghost predicate FailsLater(g: Program, b: BlockId, w: seq<bool>, trace: seq<Event>) {
    exists k: nat :: FailsWithin(g, b, w, trace, k)
  }

  /** The run is one of the graph from `entry` to `exit` and sets no flag. */
  ghost predicate EndsAs(g: Program, r: Run, entry: BlockId, exit: Exit, w: seq<bool>, flags: set<nat>) {
    match r.end
    case Finished(rest, after) =>
      after == flags
      && (match exit
          case At(x) => WalksTo(g, entry, w, r.trace, Running(x, rest))
          case Leave => WalksTo(g, entry, w, r.trace, Stopped(rest))
          case Never => false)
    case Starved => WalksTo(g, entry, w, r.trace, Unfed)
    case Failed => FailsLater(g, entry, w, r.trace)
    case Spinning => false
    case Unemitted => false
  }

  ghost predicate SimulatesOn(g: Program, nodes: seq<StructureNode>, entry: BlockId, exit: Exit, w: seq<bool>, flags: set<nat>) {
    EndsAs(g, g.RunTree(nodes, w, flags), entry, exit, w, flags)
  }

  /** Running `nodes` is running the graph from `entry` to `exit`. */
  ghost predicate Simulates(g: Program, nodes: seq<StructureNode>, entry: BlockId, exit: Exit) {
    forall w: seq<bool>, flags: set<nat> :: SimulatesOn(g, nodes, entry, exit, w, flags)
  }

  // ── Composition ──────────────────────────────────────────────────────────

  lemma WalksThrough(g: Program, b: BlockId, w: seq<bool>, t1: seq<Event>, x: BlockId, rest: seq<bool>, t2: seq<Event>, end: GraphEnd)
    requires WalksTo(g, b, w, t1, Running(x, rest)) && WalksTo(g, x, rest, t2, end)
    ensures WalksTo(g, b, w, t1 + t2, end)
  {
    var n: nat :| g.Walk(n, b, w) == GraphRun(t1, Running(x, rest));
    var m: nat :| g.Walk(m, x, rest) == GraphRun(t2, end);
    WalkCompose(g.blocks, g.diverging, n, m, b, w);
    assert g.Walk(n + m, b, w) == GraphRun(t1 + t2, end);
  }

  lemma FailsThrough(g: Program, b: BlockId, w: seq<bool>, t1: seq<Event>, x: BlockId, rest: seq<bool>, t2: seq<Event>)
    requires WalksTo(g, b, w, t1, Running(x, rest)) && FailsLater(g, x, rest, t2)
    ensures FailsLater(g, b, w, t1 + t2)
  {
    var n: nat :| g.Walk(n, b, w) == GraphRun(t1, Running(x, rest));
    var k: nat :| FailsWithin(g, x, rest, t2, k);
    forall more: seq<bool> | |more| >= k
      ensures FailsOn(g, b, w + more, t1 + t2)
    {
      assert FailsOn(g, x, rest + more, t2);
      var m: nat :| g.Walk(m, x, rest + more).end.Trapped? && t2 <= g.Walk(m, x, rest + more).trace;
      WalkFeed(g.blocks, g.diverging, n, b, w, more);
      WalkCompose(g.blocks, g.diverging, n, m, b, w + more);
      assert g.Walk(n + m, b, w + more) == Prepend(t1, g.Walk(m, x, rest + more));
    }
    assert FailsWithin(g, b, w, t1 + t2, k);
  }

  lemma SimulatesNothing(g: Program, x: BlockId)
    ensures Simulates(g, [], x, At(x))
  {
    forall w: seq<bool>, flags: set<nat>
      ensures SimulatesOn(g, [], x, At(x), w, flags)
    {
      assert g.Walk(0, x, w) == GraphRun([], Running(x, w));
    }
  }

  lemma SimulatesThen(g: Program, a: seq<StructureNode>, b: seq<StructureNode>, entry: BlockId, mid: BlockId, exit: Exit)
    requires Simulates(g, a, entry, At(mid)) && Simulates(g, b, mid, exit)
    ensures Simulates(g, a + b, entry, exit)
  {
    forall w: seq<bool>, flags: set<nat>
      ensures SimulatesOn(g, a + b, entry, exit, w, flags)
    {
      assert SimulatesOn(g, a, entry, At(mid), w, flags);
      RunConcat(g.diverging, a, b, w, flags);
      var r := g.RunTree(a, w, flags);
      if r.end.Finished? {
        assert SimulatesOn(g, b, mid, exit, r.end.rest, flags);
        ContinuesOn(g, r.trace, r.end.rest, g.RunTree(b, r.end.rest, flags), entry, mid, exit, w, flags);
      }
    }
  }

  /** What follows a walk to `mid`, prefixed with that walk. */
  lemma ContinuesOn(g: Program, trace: seq<Event>, rest: seq<bool>, s: Run, entry: BlockId, mid: BlockId, exit: Exit, w: seq<bool>, flags: set<nat>)
    requires WalksTo(g, entry, w, trace, Running(mid, rest)) && EndsAs(g, s, mid, exit, rest, flags)
    ensures EndsAs(g, Then(Run(trace, Finished(rest, flags)), s), entry, exit, w, flags)
  {
    match s.end
    case Finished(rest2, _) =>
      match exit {
        case At(x) => WalksThrough(g, entry, w, trace, mid, rest, s.trace, Running(x, rest2));
        case Leave => WalksThrough(g, entry, w, trace, mid, rest, s.trace, Stopped(rest2));
        case Never =>
      }
    case Starved => WalksThrough(g, entry, w, trace, mid, rest, s.trace, Unfed);
    case Failed => FailsThrough(g, entry, w, trace, mid, rest, s.trace);
    case Spinning =>
    case Unemitted =>
  }

  lemma SimulatesNever(g: Program, nodes: seq<StructureNode>, entry: BlockId, exit: Exit)
    requires Simulates(g, nodes, entry, Never)
    ensures Simulates(g, nodes, entry, exit)
  {
    forall w: seq<bool>, flags: set<nat>
      ensures SimulatesOn(g, nodes, entry, exit, w, flags)
    {
      assert SimulatesOn(g, nodes, entry, Never, w, flags);
    }
  }

  // ── Single blocks ────────────────────────────────────────────────────────

  lemma RunOne(g: Program, node: StructureNode, w: seq<bool>, flags: set<nat>)
    ensures g.RunTree([node], w, flags) == RunNode(g.diverging, node, w, flags)
  {
    var first := RunNode(g.diverging, node, w, flags);
    assert [node][0] == node && [node][1..] == [];
    assert RunSeq(g.diverging, [node], w, flags) ==
      if !first.end.Finished? then first else Then(first, RunSeq(g.diverging, [], first.end.rest, first.end.flags));
    assert first.trace + [] == first.trace;
  }

  lemma RunTwo(g: Program, a: StructureNode, b: StructureNode, w: seq<bool>, flags: set<nat>)
    ensures var r := RunNode(g.diverging, a, w, flags);
            g.RunTree([a, b], w, flags) == if r.end.Finished? then Then(r, RunNode(g.diverging, b, r.end.rest, r.end.flags)) else r
  {
    assert [a, b] == [a] + [b];
    RunConcat(g.diverging, [a], [b], w, flags);
    RunOne(g, a, w, flags);
    var r := RunNode(g.diverging, a, w, flags);
    if r.end.Finished? {
      RunOne(g, b, r.end.rest, r.end.flags);
    }
  }

  lemma SimulatesJump(g: Program, b: BlockId, t: BlockId)
    requires b < |g.blocks| && (g.blocks[b].terminator == Jump(t) || g.blocks[b].terminator == Fallthrough(t))
    ensures Simulates(g, [Linear(b)], b, At(t))
  {
    forall w: seq<bool>, flags: set<nat>
      ensures SimulatesOn(g, [Linear(b)], b, At(t), w, flags)
    {
      RunOne(g, Linear(b), w, flags);
      assert g.Walk(0, t, w) == GraphRun([], Running(t, w));
      assert g.Walk(1, b, w) == GraphRun([Visit(b)], Running(t, w));
    }
  }

  lemma SimulatesCall(g: Program, b: BlockId, callee: BlockId, continuation: BlockId)
    requires b < |g.blocks| && g.blocks[b].terminator == Call(callee, continuation)
    ensures Simulates(g, [Linear(b), CallNode(callee)], b, if callee in g.diverging then Never else At(continuation))
  {
    var exit := if callee in g.diverging then Never else At(continuation);
    forall w: seq<bool>, flags: set<nat>
      ensures SimulatesOn(g, [Linear(b), CallNode(callee)], b, exit, w, flags)
    {
      RunTwo(g, Linear(b), CallNode(callee), w, flags);
      assert [Visit(b)] + [Called(callee)] == [Visit(b), Called(callee)];
      if callee in g.diverging {
        FailsAtOnce(g, b, w, [Visit(b), Called(callee)]);
      } else {
        assert g.Walk(0, continuation, w) == GraphRun([], Running(continuation, w));
        assert g.Walk(1, b, w) == GraphRun([Visit(b), Called(callee)], Running(continuation, w));
      }
    }
  }

  lemma FailsAtOnce(g: Program, b: BlockId, w: seq<bool>, trace: seq<Event>)
    requires forall v: seq<bool> :: g.Walk(1, b, v) == GraphRun(trace, Trapped)
    ensures FailsLater(g, b, w, trace)
  {
    forall more: seq<bool> | |more| >= 0
      ensures FailsOn(g, b, w + more, trace)
    {
      assert g.Walk(1, b, w + more).end.Trapped?;
    }
    assert FailsWithin(g, b, w, trace, 0);
  }

  lemma SimulatesTrap(g: Program, b: BlockId)
    requires b < |g.blocks| && (g.blocks[b].terminator.Trap? || g.blocks[b].terminator.TrapReturn?)
    ensures Simulates(g, [Linear(b), TrapNode(b)], b, Never)
  {
    forall w: seq<bool>, flags: set<nat>
      ensures SimulatesOn(g, [Linear(b), TrapNode(b)], b, Never, w, flags)
    {
      RunTwo(g, Linear(b), TrapNode(b), w, flags);
      assert [Visit(b)] + [] == [Visit(b)];
      FailsAtOnce(g, b, w, [Visit(b)]);
    }
  }

  lemma SimulatesEnd(g: Program, b: BlockId, node: StructureNode)
    requires b < |g.blocks|
    requires (g.blocks[b].terminator.Return? && node == ReturnNode(b)) || (g.blocks[b].terminator.Stop? && node == StopNode(b))
    ensures Simulates(g, [Linear(b), node], b, Leave)
  {
    forall w: seq<bool>, flags: set<nat>
      ensures SimulatesOn(g, [Linear(b), node], b, Leave, w, flags)
    {
      RunTwo(g, Linear(b), node, w, flags);
      assert g.Walk(1, b, w) == GraphRun([Visit(b)], Stopped(w));
    }
  }

  // ── Conditionals ─────────────────────────────────────────────────────────

  lemma WalkBranch(g: Program, b: BlockId, t: Terminator, w: seq<bool>)
    requires b < |g.blocks| && g.blocks[b].terminator == t && t.JumpIf?
    ensures w == [] ==> WalksTo(g, b, w, [Visit(b), Tested(t.condition)], Unfed)
    ensures w != [] ==> WalksTo(g, b, w, [Visit(b), Tested(t.condition)], Running(if w[0] then t.thenBlock else t.elseBlock, w[1..]))
  {
    if w == [] {
      assert g.Walk(1, b, w) == GraphRun([Visit(b), Tested(t.condition)], Unfed);
    } else {
      var x := if w[0] then t.thenBlock else t.elseBlock;
      assert g.Walk(0, x, w[1..]) == GraphRun([], Running(x, w[1..]));
      assert g.Walk(1, b, w) == GraphRun([Visit(b), Tested(t.condition)], Running(x, w[1..]));
    }
  }

  lemma SimulatesIf(g: Program, b: BlockId, t: Terminator, thenBranch: seq<StructureNode>, elseBranch: seq<StructureNode>, exit: Exit)
    requires b < |g.blocks| && g.blocks[b].terminator == t && t.JumpIf?
    requires Simulates(g, thenBranch, t.thenBlock, exit) && Simulates(g, elseBranch, t.elseBlock, exit)
    ensures Simulates(g, [Linear(b), IfThenElse(b, t.condition, thenBranch, elseBranch)], b, exit)
  {
    var node := IfThenElse(b, t.condition, thenBranch, elseBranch);
    forall w: seq<bool>, flags: set<nat>
      ensures SimulatesOn(g, [Linear(b), node], b, exit, w, flags)
    {
      RunTwo(g, Linear(b), node, w, flags);
      WalkBranch(g, b, t, w);
      if w != [] {
        var x := if w[0] then t.thenBlock else t.elseBlock;
        var branch := if w[0] then thenBranch else elseBranch;
        assert SimulatesOn(g, branch, x, exit, w[1..], flags);
        var rest := g.RunTree(branch, w[1..], flags);
        ContinuesOn(g, [Visit(b), Tested(t.condition)], w[1..], rest, b, x, exit, w, flags);
        assert [Visit(b)] + ([Tested(t.condition)] + rest.trace) == [Visit(b), Tested(t.condition)] + rest.trace;
      }
    }
  }

  /** A divergent block fails once enough outcomes are supplied. */
  lemma {:induction false} DivergentFails(g: Program, succ: Graph, leaves: set<nat>, n: nat, b: BlockId, w: seq<bool>)
    requires |succ| == |g.blocks| && WellFormed(g.blocks)
    requires DivergesWithin(succ, leaves, n, b) && |w| >= n
    requires forall x: nat :: x in leaves ==> x < |g.blocks| && FailingLeaf(g, g.blocks[x].terminator)
    requires forall x: nat :: x < |succ| ==> CallerStep(g, g.blocks[x].terminator, succ[x])
    ensures FailsOn(g, b, w, [])
    decreases n
  {
    if b in leaves {
      assert g.Walk(1, b, w).end.Trapped?;
    } else {
      assert CallerStep(g, g.blocks[b].terminator, succ[b]);
      match g.blocks[b].terminator
      case Jump(t) =>
        assert t in succ[b];
        DivergentFails(g, succ, leaves, n - 1, t, w);
        FailsBefore(g, b, w, [Visit(b)], t, w);
      case Fallthrough(t) =>
        assert t in succ[b];
        DivergentFails(g, succ, leaves, n - 1, t, w);
        FailsBefore(g, b, w, [Visit(b)], t, w);
      case JumpIf(condition, x, y) =>
        var t := if w[0] then x else y;
        assert t in succ[b];
        DivergentFails(g, succ, leaves, n - 1, t, w[1..]);
        FailsBefore(g, b, w, [Visit(b), Tested(condition)], t, w[1..]);
      case Call(f, x) =>
        if f in g.diverging {
          assert g.Walk(1, b, w).end.Trapped?;
        } else {
          assert x in succ[b];
          DivergentFails(g, succ, leaves, n - 1, x, w);
          FailsBefore(g, b, w, [Visit(b), Called(f)], x, w);
        }
      case _ =>
    }
  }

  lemma FailsBefore(g: Program, b: BlockId, w: seq<bool>, trace: seq<Event>, t: BlockId, rest: seq<bool>)
    requires forall n: nat :: g.Walk(n + 1, b, w) == Prepend(trace, g.Walk(n, t, rest))
    requires FailsOn(g, t, rest, [])
    ensures FailsOn(g, b, w, [])
  {
    var n: nat :| g.Walk(n, t, rest).end.Trapped?;
    assert g.Walk(n + 1, b, w).end.Trapped?;
  }

  predicate FailingLeaf(g: Program, t: Terminator) {
    t.Trap? || t.TrapReturn? || (t.Call? && t.callee in g.diverging)
  }

  /** The caller's view of a block that is no leaf. */
  ghost predicate CallerStep(g: Program, t: Terminator, succ: seq<nat>) {
    match t
    case Call(_, continuation) => succ == [] || succ == [continuation]
    case _ => succ == Targets(t)
  }

  /** The trap peephole: the outcome is asserted, and when it is false the graph
      goes on into a block that fails. */
  lemma SimulatesAssert(g: Program, b: BlockId, t: Terminator, k: nat)
    requires b < |g.blocks| && g.blocks[b].terminator == t && t.JumpIf?
    requires forall w: seq<bool> :: |w| >= k ==> FailsOn(g, t.elseBlock, w, [])
    ensures Simulates(g, [Linear(b), BoolAssert(b, t.condition)], b, At(t.thenBlock))
  {
    forall w: seq<bool>, flags: set<nat>
      ensures SimulatesOn(g, [Linear(b), BoolAssert(b, t.condition)], b, At(t.thenBlock), w, flags)
    {
      RunTwo(g, Linear(b), BoolAssert(b, t.condition), w, flags);
      WalkBranch(g, b, t, w);
      if w != [] && !w[0] {
        forall more: seq<bool> | |more| >= k
          ensures FailsOn(g, t.elseBlock, w[1..] + more, [])
        {
        }
        assert FailsWithin(g, t.elseBlock, w[1..], [], k);
        FailsThrough(g, b, w, [Visit(b), Tested(t.condition)], t.elseBlock, w[1..], []);
        assert [Visit(b), Tested(t.condition)] + [] == [Visit(b)] + [Tested(t.condition)];
      }
    }
  }

  // ── Loops ────────────────────────────────────────────────────────────────

  /** The block control enters when the loop goes on, and when it ends. */
  function Inside(t: Terminator, p: CondPolarity): BlockId
    requires t.JumpIf?
  {
    if p.ContinueOnTrue? then t.thenBlock else t.elseBlock
  }

  function Outside(t: Terminator, p: CondPolarity): BlockId
    requires t.JumpIf?
  {
    if p.ContinueOnTrue? then t.elseBlock else t.thenBlock
  }

  lemma {:induction false} LoopRuns(g: Program, h: BlockId, t: Terminator, p: CondPolarity, body: seq<StructureNode>, w: seq<bool>,
                                    flags: set<nat>)
    requires h < |g.blocks| && g.blocks[h].terminator == t && t.JumpIf?
    requires Simulates(g, body, Inside(t, p), At(h))
    ensures EndsAs(g, RunNode(g.diverging, Loop(h, [Linear(h)], Some(LoopCondition(t.condition, p)), None, body), w, flags), h,
                   At(Outside(t, p)), w, flags)
    decreases |w|
  {
    var node := Loop(h, [Linear(h)], Some(LoopCondition(t.condition, p)), None, body);
    RunOne(g, Linear(h), w, flags);
    WalkBranch(g, h, t, w);
    assert [Visit(h)] + [Tested(t.condition)] == [Visit(h), Tested(t.condition)];
    if w != [] && (w[0] == p.ContinueOnTrue?) {
      var w1 := w[1..];
      assert SimulatesOn(g, body, Inside(t, p), At(h), w1, flags);
      ContinuesOn(g, [Visit(h), Tested(t.condition)], w1, g.RunTree(body, w1, flags), h, Inside(t, p), At(h), w, flags);
      var pass := Then(Run([Visit(h), Tested(t.condition)], Finished(w1, flags)), g.RunTree(body, w1, flags));
      if pass.end.Finished? {
        LoopRuns(g, h, t, p, body, pass.end.rest, flags);
        ContinuesOn(g, pass.trace, pass.end.rest, RunNode(g.diverging, node, pass.end.rest, flags), h, h, At(Outside(t, p)), w, flags);
      }
    }
  }

  lemma SimulatesLoop(g: Program, h: BlockId, t: Terminator, p: CondPolarity, body: seq<StructureNode>)
    requires h < |g.blocks| && g.blocks[h].terminator == t && t.JumpIf?
    requires Simulates(g, body, Inside(t, p), At(h))
    ensures Simulates(g, [Loop(h, [Linear(h)], Some(LoopCondition(t.condition, p)), None, body)], h, At(Outside(t, p)))
  {
    var node := Loop(h, [Linear(h)], Some(LoopCondition(t.condition, p)), None, body);
    forall w: seq<bool>, flags: set<nat>
      ensures SimulatesOn(g, [node], h, At(Outside(t, p)), w, flags)
    {
      LoopRuns(g, h, t, p, body, w, flags);
      RunOne(g, node, w, flags);
    }
  }
}
