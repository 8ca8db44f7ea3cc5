/** The structured tree, what running it does, and what running the graph does,
    both driven by the outcomes of the conditional jumps in execution order. */
module StructureTree {
  import opened Graphs
  import opened CfgTypes
  import opened Rewrites

  datatype CondPolarity = ContinueOnTrue | ExitOnTrue

  datatype LoopCondition = LoopCondition(register: nat, polarity: CondPolarity)

  datatype StructureNode =
    | Linear(block: BlockId)
    | IfThenElse(condBlock: BlockId, condition: nat, thenBranch: seq<StructureNode>, elseBranch: seq<StructureNode>)
    | Loop(header: BlockId, testPrefix: seq<StructureNode>, loopCondition: Option<LoopCondition>,
           escapeFlag: Option<nat>, body: seq<StructureNode>)
    | SetEscapeFlag(slot: nat)
    | CallNode(target: BlockId)
    | BoolAssert(condBlock: BlockId, condition: nat)
    | TrapNode(block: BlockId)
    | StopNode(block: BlockId)
    | ReturnNode(block: BlockId)

  // ── Runs ─────────────────────────────────────────────────────────────────

  /** A block's opcodes are executed, a procedure is called, a register is tested
      for the outcome of a conditional jump. */
  datatype Event = Visit(block: BlockId) | Called(callee: BlockId) | Tested(register: nat)

  /** How a run of the tree ends: past the last node, with the outcomes left over
      and the escape flags that are set; by failing; at a condition with no
      outcome left; going round a loop for ever; or not at all, because a loop
      with neither condition nor flag is not emitted. */
  datatype End = Finished(rest: seq<bool>, flags: set<nat>) | Failed | Starved | Spinning | Unemitted

  datatype Run = Run(trace: seq<Event>, end: End)

  function Then(r: Run, s: Run): Run {
    Run(r.trace + s.trace, s.end)
  }

  /** `Return` and `Stop` nodes emit nothing; calls into diverging procedures
      and traps fail. A loop runs its test prefix, reads its condition and its
      flag, and goes on if the one says so and the other is not set; nothing
      clears a flag. */
  function RunNode(diverging: set<BlockId>, node: StructureNode, w: seq<bool>, flags: set<nat>): (r: Run)
    ensures r.end.Finished? ==> |r.end.rest| <= |w| && flags <= r.end.flags
    decreases |w|, node, if node.Loop? && node.escapeFlag.Some? && node.escapeFlag.value in flags then 1 else 2
  {
    match node
    case Linear(b) => Run([Visit(b)], Finished(w, flags))
    case IfThenElse(_, condition, thenBranch, elseBranch) =>
      if w == [] then Run([Tested(condition)], Starved)
      else
        Then(Run([Tested(condition)], Finished(w[1..], flags)),
             RunSeq(diverging, if w[0] then thenBranch else elseBranch, w[1..], flags))
    case Loop(_, testPrefix, condition, flag, body) =>
      if condition.None? && flag.None? then Run([], Unemitted)
      else
        var test := RunSeq(diverging, testPrefix, w, flags);
        if !test.end.Finished? then test
        else
          var tested := test.trace + TestOf(condition);
          if condition.Some? && test.end.rest == [] then Run(tested, Starved)
          else
            var w1 := if condition.Some? then test.end.rest[1..] else test.end.rest;
            var again := (condition.Some? ==> test.end.rest[0] == condition.value.polarity.ContinueOnTrue?)
                         && (flag.Some? ==> flag.value !in test.end.flags);
            if !again then Run(tested, Finished(w1, test.end.flags))
            else
              var pass := Then(Run(tested, Finished(w1, test.end.flags)), RunSeq(diverging, body, w1, test.end.flags));
              if !pass.end.Finished? then pass
              else if condition.None? && |pass.end.rest| == |w| && flag.value !in pass.end.flags then Run(pass.trace, Spinning)
              else Then(pass, RunNode(diverging, node, pass.end.rest, pass.end.flags))
    case SetEscapeFlag(slot) => Run([], Finished(w, flags + {slot}))
    case CallNode(t) => Run([Called(t)], if t in diverging then Failed else Finished(w, flags))
    case BoolAssert(_, condition) =>
      Run([Tested(condition)], if w == [] then Starved else if w[0] then Finished(w[1..], flags) else Failed)
    case TrapNode(_) => Run([], Failed)
    case StopNode(_) => Run([], Finished(w, flags))
    case ReturnNode(_) => Run([], Finished(w, flags))
  }

  function RunSeq(diverging: set<BlockId>, nodes: seq<StructureNode>, w: seq<bool>, flags: set<nat>): (r: Run)
    ensures r.end.Finished? ==> |r.end.rest| <= |w| && flags <= r.end.flags
    decreases |w|, nodes, 0
  {
    if nodes == [] then Run([], Finished(w, flags))
    else
      var first := RunNode(diverging, nodes[0], w, flags);
      if !first.end.Finished? then first
      else Then(first, RunSeq(diverging, nodes[1..], first.end.rest, first.end.flags))
  }

  /** What reading the condition of a loop adds to the trace. */
  function TestOf(condition: Option<LoopCondition>): seq<Event> {
    if condition.Some? then [Tested(condition.value.register)] else []
  }

  /** How `n` steps through the graph end: still running at a block, stopped by
      `Return` or `Stop`, failed, or at a conditional jump with no outcome. */
  datatype GraphEnd = Running(at: BlockId, rest: seq<bool>) | Stopped(rest: seq<bool>) | Trapped | Unfed | Dead

  datatype GraphRun = GraphRun(trace: seq<Event>, end: GraphEnd)

  function Prepend(trace: seq<Event>, r: GraphRun): GraphRun {
    GraphRun(trace + r.trace, r.end)
  }

  function Walk(blocks: seq<Block>, diverging: set<BlockId>, n: nat, b: BlockId, w: seq<bool>): GraphRun {
    if n == 0 then GraphRun([], Running(b, w))
    else if b >= |blocks| then GraphRun([], Dead)
    else
      match blocks[b].terminator
      case Jump(t) => Prepend([Visit(b)], Walk(blocks, diverging, n - 1, t, w))
      case Fallthrough(t) => Prepend([Visit(b)], Walk(blocks, diverging, n - 1, t, w))
      case JumpIf(condition, thenBlock, elseBlock) =>
        if w == [] then GraphRun([Visit(b), Tested(condition)], Unfed)
        else Prepend([Visit(b), Tested(condition)], Walk(blocks, diverging, n - 1, if w[0] then thenBlock else elseBlock, w[1..]))
      case Call(callee, continuation) =>
        if callee in diverging then GraphRun([Visit(b), Called(callee)], Trapped)
        else Prepend([Visit(b), Called(callee)], Walk(blocks, diverging, n - 1, continuation, w))
      case Return => GraphRun([Visit(b)], Stopped(w))
      case Stop => GraphRun([Visit(b)], Stopped(w))
      case Trap => GraphRun([Visit(b)], Trapped)
      case TrapReturn => GraphRun([Visit(b)], Trapped)
      case Unreachable => GraphRun([Visit(b)], Dead)
  }

  /** Entries of procedures without a returning block. */
  function Diverging(procedures: seq<Procedure>): set<BlockId> {
    set i | 0 <= i < |procedures| && procedures[i].returnBlock.None? :: procedures[i].entry
  }

  /** Where one step leads, with what events. */
  lemma WalkUnfold(blocks: seq<Block>, diverging: set<BlockId>, n: nat, b: BlockId, w: seq<bool>) returns (pre: seq<Event>, next: BlockId, rest: seq<bool>)
    requires n > 0 && Walk(blocks, diverging, n, b, w).end.Running?
    ensures forall m: nat :: m > 0 ==> Walk(blocks, diverging, m, b, w) == Prepend(pre, Walk(blocks, diverging, m - 1, next, rest))
  {
    var t := blocks[b].terminator;
    pre := if t.Call? then [Visit(b), Called(t.callee)] else if t.JumpIf? then [Visit(b), Tested(t.condition)] else [Visit(b)];
    next := match t
      case Jump(x) => x
      case Fallthrough(x) => x
      case JumpIf(_, x, y) => if w[0] then x else y
      case Call(_, x) => x;
    rest := if t.JumpIf? then w[1..] else w;
  }

  lemma PrependTwice(a: seq<Event>, b: seq<Event>, r: GraphRun)
    ensures Prepend(a, Prepend(b, r)) == Prepend(a + b, r)
  {
    assert a + (b + r.trace) == (a + b) + r.trace;
  }

  lemma {:induction false} WalkCompose(blocks: seq<Block>, diverging: set<BlockId>, n: nat, m: nat, b: BlockId, w: seq<bool>)
    requires Walk(blocks, diverging, n, b, w).end.Running?
    ensures var first := Walk(blocks, diverging, n, b, w);
            Walk(blocks, diverging, n + m, b, w)
              == Prepend(first.trace, Walk(blocks, diverging, m, first.end.at, first.end.rest))
    decreases n
  {
    if n > 0 {
      var pre, next, rest := WalkUnfold(blocks, diverging, n, b, w);
      hide Walk;
      WalkCompose(blocks, diverging, n - 1, m, next, rest);
      var first := Walk(blocks, diverging, n - 1, next, rest);
      PrependTwice(pre, first.trace, Walk(blocks, diverging, m, first.end.at, first.end.rest));
    }
  }

  function Feed(e: GraphEnd, more: seq<bool>): GraphEnd {
    match e
    case Running(b, rest) => Running(b, rest + more)
    case Stopped(rest) => Stopped(rest + more)
    case _ => e
  }

  /** Outcomes beyond those consumed do not matter. */
  lemma {:induction false} WalkFeed(blocks: seq<Block>, diverging: set<BlockId>, n: nat, b: BlockId, w: seq<bool>, more: seq<bool>)
    requires !Walk(blocks, diverging, n, b, w).end.Unfed?
    ensures var r := Walk(blocks, diverging, n, b, w);
            Walk(blocks, diverging, n, b, w + more) == GraphRun(r.trace, Feed(r.end, more))
    decreases n
  {
    if n > 0 && b < |blocks| {
      match blocks[b].terminator
      case Jump(t) => WalkFeed(blocks, diverging, n - 1, t, w, more);
      case Fallthrough(t) => WalkFeed(blocks, diverging, n - 1, t, w, more);
      case JumpIf(_, x, y) =>
        assert (w + more)[1..] == w[1..] + more;
        WalkFeed(blocks, diverging, n - 1, if w[0] then x else y, w[1..], more);
      case Call(f, x) =>
        if f !in diverging {
          WalkFeed(blocks, diverging, n - 1, x, w, more);
        }
      case _ =>
    }
  }

  /** A run that has ended stays as it is. */
  lemma {:induction false} WalkEnded(blocks: seq<Block>, diverging: set<BlockId>, n: nat, m: nat, b: BlockId, w: seq<bool>)
    requires !Walk(blocks, diverging, n, b, w).end.Running? && n <= m
    ensures Walk(blocks, diverging, m, b, w) == Walk(blocks, diverging, n, b, w)
    decreases n
  {
    if b < |blocks| {
      match blocks[b].terminator
      case Jump(t) => WalkEnded(blocks, diverging, n - 1, m - 1, t, w);
      case Fallthrough(t) => WalkEnded(blocks, diverging, n - 1, m - 1, t, w);
      case JumpIf(_, x, y) =>
        if w != [] {
          WalkEnded(blocks, diverging, n - 1, m - 1, if w[0] then x else y, w[1..]);
        }
      case Call(f, x) =>
        if f !in diverging {
          WalkEnded(blocks, diverging, n - 1, m - 1, x, w);
        }
      case _ =>
    }
  }

  lemma {:induction false} RunConcat(diverging: set<BlockId>, a: seq<StructureNode>, b: seq<StructureNode>, w: seq<bool>, flags: set<nat>)
    ensures var r := RunSeq(diverging, a, w, flags);
            RunSeq(diverging, a + b, w, flags)
              == if r.end.Finished? then Then(r, RunSeq(diverging, b, r.end.rest, r.end.flags)) else r
    decreases |a|
  {
    if a == [] {
      assert a + b == b;
    } else {
      var first := RunNode(diverging, a[0], w, flags);
      assert (a + b)[1..] == a[1..] + b;
      if first.end.Finished? {
        RunConcat(diverging, a[1..], b, first.end.rest, first.end.flags);
        var mid := RunSeq(diverging, a[1..], first.end.rest, first.end.flags);
        if mid.end.Finished? {
          var last := RunSeq(diverging, b, mid.end.rest, mid.end.flags);
          assert first.trace + (mid.trace + last.trace) == (first.trace + mid.trace) + last.trace;
        }
      }
    }
  }
}
