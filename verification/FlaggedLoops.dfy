/** Loops with an escape flag. A break only sets the flag, which is read at the
    next test of the loop, and nothing clears it: a break is followed by one more
    run of the header, and a loop entered again with its flag set skips its body. */
module FlaggedLoops {
  import opened Graphs
  import opened CfgTypes
  import opened StructureTree
  import opened Simulation

  /** What a break of a loop means: the blocks of the loop other than its header,
      the block the graph goes to, and the flag the tree sets. */
  datatype Frame = Frame(header: BlockId, inner: set<BlockId>, exit: BlockId, slot: nat)

  function BreakableLoop(f: Frame, condition: Option<LoopCondition>, body: seq<StructureNode>): StructureNode {
    Loop(f.header, [Linear(f.header)], condition, Some(f.slot), body)
  }

  /** The events of one more test: the header, and the register if there is one. */
  function Retest(h: BlockId, condition: Option<LoopCondition>): seq<Event> {
    [Visit(h)] + TestOf(condition)
  }

  /** The outcomes left when the condition, if there is one, has been read. */
  function AfterTest(condition: Option<LoopCondition>, w: seq<bool>): seq<bool>
    requires condition.Some? ==> w != []
  {
    if condition.Some? then w[1..] else w
  }

  predicate Continues(condition: Option<LoopCondition>, w: seq<bool>)
    requires condition.Some? ==> w != []
  {
    condition.Some? ==> w[0] == condition.value.polarity.ContinueOnTrue?
  }

  /** The header ends in the jump that `condition` stands for and enters the body
      at `start`; its other arm and the exit lie outside. */
  ghost predicate EntersBody(g: Program, f: Frame, condition: Option<LoopCondition>, start: BlockId) {
    && f.header < |g.blocks| && f.header !in f.inner
    && start in f.inner + {f.header} && f.exit !in f.inner + {f.header}
    && var t := g.blocks[f.header].terminator;
       match condition
       case Some(c) => t.JumpIf? && t.condition == c.register && start == Inside(t, c.polarity) && Outside(t, c.polarity) !in f.inner + {f.header}
       case None => t == Jump(start) || t == Fallthrough(start)
  }

  // ── When the graph breaks ────────────────────────────────────────────────

  /** Before its first `n` steps the walk stands at blocks of `inside`. */
  ghost predicate StaysIn(g: Program, b: BlockId, w: seq<bool>, n: nat, inside: set<BlockId>) {
    forall k: nat :: k < n ==> g.Walk(k, b, w).end.Running? && g.Walk(k, b, w).end.at in inside
  }

  ghost predicate BreaksAfter(g: Program, f: Frame, w: seq<bool>, n: nat) {
    && n > 0 && StaysIn(g, f.header, w, n, f.inner + {f.header})
    && g.Walk(n, f.header, w).end.Running? && g.Walk(n, f.header, w).end.at == f.exit
    && g.Walk(n - 1, f.header, w).end.at != f.header
  }

  /** The walk from the header first leaves the loop for the exit, and from a
      block other than the header. */
  ghost predicate Breaks(g: Program, f: Frame, w: seq<bool>) {
    exists n: nat :: BreaksAfter(g, f, w, n)
  }

  // ── What a body must do ──────────────────────────────────────────────────

  /** The walk goes from `b` to `x` through `inside`. */
  ghost predicate GoesTo(g: Program, b: BlockId, w: seq<bool>, trace: seq<Event>, x: BlockId, rest: seq<bool>, inside: set<BlockId>) {
    exists n: nat :: g.Walk(n, b, w) == GraphRun(trace, Running(x, rest)) && StaysIn(g, b, w, n, inside)
  }

  ghost predicate NeverAt(g: Program, b: BlockId, w: seq<bool>, x: BlockId) {
    forall n: nat :: g.Walk(n, b, w).end.Running? ==> g.Walk(n, b, w).end.at != x
  }

  /** A run goes through the loop to `mid`, or, if it may, sets the flag where the
      graph stands at the exit. */
  ghost predicate Iterates(g: Program, r: Run, b: BlockId, mid: BlockId, f: Frame, mayBreak: bool, w: seq<bool>, flags: set<nat>) {
    match r.end
    case Finished(rest, after) =>
      || (after == flags && GoesTo(g, b, w, r.trace, mid, rest, f.inner))
      || (mayBreak && after == flags + {f.slot} && GoesTo(g, b, w, r.trace, f.exit, rest, f.inner))
    case Starved => WalksTo(g, b, w, r.trace, Unfed) && NeverAt(g, b, w, f.exit)
    case Failed => FailsLater(g, b, w, r.trace) && NeverAt(g, b, w, f.exit)
    case Spinning => false
    case Unemitted => false
  }

  ghost predicate BodyIterates(g: Program, nodes: seq<StructureNode>, b: BlockId, mid: BlockId, f: Frame, mayBreak: bool) {
    forall w: seq<bool>, flags: set<nat> :: f.slot !in flags ==> Iterates(g, g.RunTree(nodes, w, flags), b, mid, f, mayBreak, w, flags)
  }

  ghost predicate NeverEnds(g: Program, b: BlockId, w: seq<bool>) {
    forall n: nat :: g.Walk(n, b, w).end.Running?
  }

  // ── Walks ────────────────────────────────────────────────────────────────

  lemma Shift(g: Program, b: BlockId, w: seq<bool>, n: nat, k: nat)
    requires g.Walk(n, b, w).end.Running?
    ensures var e := g.Walk(n, b, w).end; g.Walk(n + k, b, w) == Prepend(g.Walk(n, b, w).trace, g.Walk(k, e.at, e.rest))
  {
    WalkCompose(g.blocks, g.diverging, n, k, b, w);
  }

  lemma StaysThrough(g: Program, b: BlockId, w: seq<bool>, n: nat, k: nat, inside: set<BlockId>)
    requires g.Walk(n, b, w).end.Running? && StaysIn(g, b, w, n, inside)
    requires StaysIn(g, g.Walk(n, b, w).end.at, g.Walk(n, b, w).end.rest, k, inside)
    ensures StaysIn(g, b, w, n + k, inside)
  {
    forall j: nat | j < n + k
      ensures g.Walk(j, b, w).end.Running? && g.Walk(j, b, w).end.at in inside
    {
      if j >= n {
        Shift(g, b, w, n, j - n);
      }
    }
  }

  lemma GoesThrough(g: Program, b: BlockId, w: seq<bool>, t1: seq<Event>, m: BlockId, rest: seq<bool>, t2: seq<Event>, x: BlockId,
                    left: seq<bool>, inside: set<BlockId>)
    requires GoesTo(g, b, w, t1, m, rest, inside) && GoesTo(g, m, rest, t2, x, left, inside)
    ensures GoesTo(g, b, w, t1 + t2, x, left, inside)
  {
    var n: nat :| g.Walk(n, b, w) == GraphRun(t1, Running(m, rest)) && StaysIn(g, b, w, n, inside);
    var k: nat :| g.Walk(k, m, rest) == GraphRun(t2, Running(x, left)) && StaysIn(g, m, rest, k, inside);
    Shift(g, b, w, n, k);
    StaysThrough(g, b, w, n, k, inside);
    assert g.Walk(n + k, b, w) == GraphRun(t1 + t2, Running(x, left));
  }

  lemma NeverThrough(g: Program, b: BlockId, w: seq<bool>, t: seq<Event>, m: BlockId, rest: seq<bool>, x: BlockId, inside: set<BlockId>)
    requires GoesTo(g, b, w, t, m, rest, inside) && NeverAt(g, m, rest, x) && x !in inside
    ensures NeverAt(g, b, w, x)
  {
    var n: nat :| g.Walk(n, b, w) == GraphRun(t, Running(m, rest)) && StaysIn(g, b, w, n, inside);
    forall k: nat | g.Walk(k, b, w).end.Running?
      ensures g.Walk(k, b, w).end.at != x
    {
      if k >= n {
        Shift(g, b, w, n, k - n);
      }
    }
  }

  lemma GoesWalks(g: Program, b: BlockId, w: seq<bool>, t: seq<Event>, x: BlockId, rest: seq<bool>, inside: set<BlockId>)
    requires GoesTo(g, b, w, t, x, rest, inside)
    ensures WalksTo(g, b, w, t, Running(x, rest))
  {
  }

  /** What a walk leaves of the outcomes is their end. */
  lemma {:induction false} WalkSuffix(g: Program, n: nat, b: BlockId, w: seq<bool>)
    requires g.Walk(n, b, w).end.Running?
    ensures var rest := g.Walk(n, b, w).end.rest; |rest| <= |w| && rest == w[|w| - |rest|..]
    decreases n
  {
    if n > 0 {
      match g.blocks[b].terminator
      case Jump(t) => WalkSuffix(g, n - 1, t, w);
      case Fallthrough(t) => WalkSuffix(g, n - 1, t, w);
      case JumpIf(_, x, y) => WalkSuffix(g, n - 1, if w[0] then x else y, w[1..]);
      case Call(_, x) => WalkSuffix(g, n - 1, x, w);
      case _ =>
    }
  }

  /** The first step from the header. */
  lemma HeaderStep(g: Program, f: Frame, condition: Option<LoopCondition>, start: BlockId, w: seq<bool>)
    requires EntersBody(g, f, condition, start)
    ensures condition.Some? && w == [] ==> g.Walk(1, f.header, w) == GraphRun(Retest(f.header, condition), Unfed)
    ensures (condition.Some? ==> w != []) ==>
              g.Walk(1, f.header, w) == GraphRun(Retest(f.header, condition),
                Running(if Continues(condition, w) then start else Outside(g.blocks[f.header].terminator, condition.value.polarity),
                        AfterTest(condition, w)))
  {
    var h := f.header;
    assert forall b: BlockId, v: seq<bool> :: g.Walk(0, b, v) == GraphRun([], Running(b, v));
    match condition
    case Some(c) => assert [Visit(h)] + [Tested(c.register)] == [Visit(h), Tested(c.register)];
    case None => assert [Visit(h)] + [] == [Visit(h)];
  }

  /** A walk that comes back to where it was, with nothing read, goes on for ever. */
  lemma {:induction false} Cycles(g: Program, b: BlockId, w: seq<bool>, n: nat, m: nat)
    requires n > 0 && g.Walk(n, b, w).end == Running(b, w)
    ensures g.Walk(m, b, w).end.Running?
    decreases m
  {
    if m <= n {
      if !g.Walk(m, b, w).end.Running? {
        WalkEnded(g.blocks, g.diverging, m, n, b, w);
      }
    } else {
      Cycles(g, b, w, n, m - n);
      WalkCompose(g.blocks, g.diverging, n, m - n, b, w);
    }
  }

  lemma NeverEndsFrom(g: Program, b: BlockId, w: seq<bool>, trace: seq<Event>, x: BlockId, rest: seq<bool>)
    requires WalksTo(g, b, w, trace, Running(x, rest)) && NeverEnds(g, x, rest)
    ensures NeverEnds(g, b, w)
  {
    var n: nat :| g.Walk(n, b, w) == GraphRun(trace, Running(x, rest));
    forall m: nat
      ensures g.Walk(m, b, w).end.Running?
    {
      if m <= n {
        if !g.Walk(m, b, w).end.Running? {
          WalkEnded(g.blocks, g.diverging, m, n, b, w);
        }
      } else {
        WalkCompose(g.blocks, g.diverging, n, m - n, b, w);
        assert g.Walk(m - n, x, rest).end.Running?;
      }
    }
  }

  // ── Breaks along a walk ──────────────────────────────────────────────────

  /** After a round through the loop the question is the same. */
  lemma BreakShift(g: Program, f: Frame, w: seq<bool>, n: nat, rest: seq<bool>)
    requires n > 0 && g.Walk(n, f.header, w).end == Running(f.header, rest) && StaysIn(g, f.header, w, n, f.inner + {f.header})
    requires f.exit !in f.inner + {f.header}
    ensures Breaks(g, f, w) <==> Breaks(g, f, rest)
  {
    if Breaks(g, f, w) {
      var k: nat :| BreaksAfter(g, f, w, k);
      BreakBefore(g, f, w, n, rest, k);
    }
    if Breaks(g, f, rest) {
      var k: nat :| BreaksAfter(g, f, rest, k);
      Shift(g, f.header, w, n, k);
      Shift(g, f.header, w, n, k - 1);
      StaysThrough(g, f.header, w, n, k, f.inner + {f.header});
      assert BreaksAfter(g, f, w, n + k);
    }
  }

  lemma BreakBefore(g: Program, f: Frame, w: seq<bool>, n: nat, rest: seq<bool>, k: nat)
    requires n > 0 && g.Walk(n, f.header, w).end == Running(f.header, rest) && StaysIn(g, f.header, w, n, f.inner + {f.header})
    requires f.exit !in f.inner + {f.header} && BreaksAfter(g, f, w, k)
    ensures k > n && BreaksAfter(g, f, rest, k - n)
  {
    assert k > n + 1;
    forall j: nat | j < k - n
      ensures g.Walk(j, f.header, rest).end.Running? && g.Walk(j, f.header, rest).end.at in f.inner + {f.header}
    {
      Shift(g, f.header, w, n, j);
    }
    Shift(g, f.header, w, n, k - n);
    Shift(g, f.header, w, n, k - n - 1);
  }

  /** A walk that comes back with nothing read never breaks. */
  lemma SpinNeverBreaks(g: Program, f: Frame, w: seq<bool>, n: nat, k: nat)
    requires n > 0 && g.Walk(n, f.header, w).end == Running(f.header, w) && StaysIn(g, f.header, w, n, f.inner + {f.header})
    requires f.exit !in f.inner + {f.header}
    ensures !BreaksAfter(g, f, w, k)
  {
    if BreaksAfter(g, f, w, k) {
      BreakBefore(g, f, w, n, w, k);
    }
  }

  /** The header does not go on. */
  lemma NoBreakAtHeader(g: Program, f: Frame, condition: Option<LoopCondition>, start: BlockId, w: seq<bool>)
    requires EntersBody(g, f, condition, start)
    requires (condition.Some? && w == []) || !Continues(condition, w)
    ensures !Breaks(g, f, w)
  {
    HeaderStep(g, f, condition, start, w);
    assert g.Walk(0, f.header, w).end == Running(f.header, w);
  }

  /** From the body the exit is never reached. */
  lemma NoBreakInBody(g: Program, f: Frame, w: seq<bool>, start: BlockId, rest: seq<bool>)
    requires g.Walk(1, f.header, w).end == Running(start, rest) && NeverAt(g, start, rest, f.exit)
    ensures !Breaks(g, f, w)
  {
    forall n: nat
      ensures !BreaksAfter(g, f, w, n)
    {
      if BreaksAfter(g, f, w, n) {
        Shift(g, f.header, w, 1, n - 1);
      }
    }
  }

  /** The header and a stretch of the body. */
  lemma HeaderThen(g: Program, f: Frame, w: seq<bool>, start: BlockId, w1: seq<bool>, t: seq<Event>, trace: seq<Event>, x: BlockId, rest: seq<bool>)
    requires g.Walk(1, f.header, w) == GraphRun(t, Running(start, w1)) && GoesTo(g, start, w1, trace, x, rest, f.inner)
    ensures exists n: nat :: n > 0 && g.Walk(n, f.header, w) == GraphRun(t + trace, Running(x, rest))
                             && StaysIn(g, f.header, w, n, f.inner + {f.header})
                             && (n > 1 ==> g.Walk(n - 1, f.header, w).end.at in f.inner)
                             && (n == 1 ==> x == start)
  {
    var k: nat :| g.Walk(k, start, w1) == GraphRun(trace, Running(x, rest)) && StaysIn(g, start, w1, k, f.inner);
    assert g.Walk(0, f.header, w).end == Running(f.header, w);
    assert g.Walk(0, start, w1).end == Running(start, w1);
    Shift(g, f.header, w, 1, k);
    StaysThrough(g, f.header, w, 1, k, f.inner + {f.header});
    if k > 0 {
      Shift(g, f.header, w, 1, k - 1);
    }
    assert g.Walk(1 + k, f.header, w) == GraphRun(t + trace, Running(x, rest));
  }

  // ── The loop ─────────────────────────────────────────────────────────────

  /** With its flag set the loop is its test. */
  lemma SkipsWhenSet(g: Program, f: Frame, condition: Option<LoopCondition>, body: seq<StructureNode>, w: seq<bool>, flags: set<nat>)
    requires f.slot in flags
    ensures RunNode(g.diverging, BreakableLoop(f, condition, body), w, flags)
         == Run(Retest(f.header, condition), if condition.Some? && w == [] then Starved else Finished(AfterTest(condition, w), flags))
  {
    RunOne(g, Linear(f.header), w, flags);
  }

  /** One pass of the body, and what the loop does next. */
  lemma OnePass(g: Program, f: Frame, condition: Option<LoopCondition>, body: seq<StructureNode>, w: seq<bool>, flags: set<nat>)
    requires f.slot !in flags
    ensures var node := BreakableLoop(f, condition, body);
            var r := RunNode(g.diverging, node, w, flags);
            if condition.Some? && w == [] then r == Run(Retest(f.header, condition), Starved)
            else
              var w1 := AfterTest(condition, w);
              if !Continues(condition, w) then r == Run(Retest(f.header, condition), Finished(w1, flags))
              else
                var pass := Then(Run(Retest(f.header, condition), Finished(w1, flags)), g.RunTree(body, w1, flags));
                if !pass.end.Finished? then r == pass
                else if condition.None? && |pass.end.rest| == |w| && f.slot !in pass.end.flags then r == Run(pass.trace, Spinning)
                else r == Then(pass, RunNode(g.diverging, node, pass.end.rest, pass.end.flags))
  {
    RunOne(g, Linear(f.header), w, flags);
  }

  /** The run does what the graph does, until it leaves by its condition. */
  ghost predicate Keeps(g: Program, r: Run, f: Frame, condition: Option<LoopCondition>, w: seq<bool>, flags: set<nat>)
    requires f.header < |g.blocks| && (condition.Some? ==> g.blocks[f.header].terminator.JumpIf?)
  {
    match r.end
    case Finished(rest, after) =>
      && after == flags && condition.Some?
      && WalksTo(g, f.header, w, r.trace, Running(Outside(g.blocks[f.header].terminator, condition.value.polarity), rest))
    case Starved => WalksTo(g, f.header, w, r.trace, Unfed)
    case Failed => FailsLater(g, f.header, w, r.trace)
    case Spinning => NeverEnds(g, f.header, w)
    case Unemitted => false
  }

  /** The graph stands at the exit with `left`; the tree has the flag set and tests
      once more. */
  ghost predicate RetestsFrom(g: Program, r: Run, f: Frame, condition: Option<LoopCondition>, w: seq<bool>, flags: set<nat>, t: seq<Event>,
                              left: seq<bool>) {
    && WalksTo(g, f.header, w, t, Running(f.exit, left))
    && r == Run(t + Retest(f.header, condition),
                if condition.Some? && left == [] then Starved else Finished(AfterTest(condition, left), flags + {f.slot}))
  }

  ghost predicate Retests(g: Program, r: Run, f: Frame, condition: Option<LoopCondition>, w: seq<bool>, flags: set<nat>) {
    exists t: seq<Event>, left: seq<bool> :: RetestsFrom(g, r, f, condition, w, flags, t, left)
  }

  ghost predicate Outcome(g: Program, r: Run, f: Frame, condition: Option<LoopCondition>, w: seq<bool>, flags: set<nat>)
    requires f.header < |g.blocks| && (condition.Some? ==> g.blocks[f.header].terminator.JumpIf?)
  {
    if Breaks(g, f, w) then Retests(g, r, f, condition, w, flags) else Keeps(g, r, f, condition, w, flags)
  }

  lemma PassedOn(g: Program, f: Frame, condition: Option<LoopCondition>, trace: seq<Event>, rest: seq<bool>, s: Run, w: seq<bool>, flags: set<nat>)
    requires f.header < |g.blocks| && (condition.Some? ==> g.blocks[f.header].terminator.JumpIf?)
    requires WalksTo(g, f.header, w, trace, Running(f.header, rest)) && (Breaks(g, f, w) <==> Breaks(g, f, rest))
    requires Outcome(g, s, f, condition, rest, flags)
    ensures Outcome(g, Then(Run(trace, Finished(rest, flags)), s), f, condition, w, flags)
  {
    hide Breaks;
    var h := f.header;
    if Breaks(g, f, w) {
      var t: seq<Event>, left: seq<bool> :| RetestsFrom(g, s, f, condition, rest, flags, t, left);
      WalksThrough(g, h, w, trace, h, rest, t, Running(f.exit, left));
      assert trace + (t + Retest(h, condition)) == (trace + t) + Retest(h, condition);
      assert RetestsFrom(g, Then(Run(trace, Finished(rest, flags)), s), f, condition, w, flags, trace + t, left);
    } else {
      match s.end
      case Finished(rest2, _) =>
        WalksThrough(g, h, w, trace, h, rest, s.trace, Running(Outside(g.blocks[h].terminator, condition.value.polarity), rest2));
      case Starved => WalksThrough(g, h, w, trace, h, rest, s.trace, Unfed);
      case Failed => FailsThrough(g, h, w, trace, h, rest, s.trace);
      case Spinning => NeverEndsFrom(g, h, w, trace, h, rest);
      case Unemitted =>
    }
  }

  /** A pass that breaks. */
  lemma BreakingPass(g: Program, f: Frame, condition: Option<LoopCondition>, body: seq<StructureNode>, start: BlockId, w: seq<bool>,
                     w1: seq<bool>, flags: set<nat>, s: Run)
    requires EntersBody(g, f, condition, start)
    requires g.Walk(1, f.header, w) == GraphRun(Retest(f.header, condition), Running(start, w1))
    requires s.end.Finished? && GoesTo(g, start, w1, s.trace, f.exit, s.end.rest, f.inner) && s.end.flags == flags + {f.slot}
    ensures Breaks(g, f, w)
    ensures var pass := Then(Run(Retest(f.header, condition), Finished(w1, flags)), s);
            Retests(g, Then(pass, RunNode(g.diverging, BreakableLoop(f, condition, body), s.end.rest, s.end.flags)), f, condition, w, flags)
  {
    hide RunNode;
    HeaderThen(g, f, w, start, w1, Retest(f.header, condition), s.trace, f.exit, s.end.rest);
    var trace := Retest(f.header, condition) + s.trace;
    var n: nat :| n > 0 && g.Walk(n, f.header, w) == GraphRun(trace, Running(f.exit, s.end.rest))
                  && StaysIn(g, f.header, w, n, f.inner + {f.header}) && (n > 1 ==> g.Walk(n - 1, f.header, w).end.at in f.inner)
                  && (n == 1 ==> f.exit == start);
    assert BreaksAfter(g, f, w, n);
    SkipsWhenSet(g, f, condition, body, s.end.rest, s.end.flags);
    var pass := Then(Run(Retest(f.header, condition), Finished(w1, flags)), s);
    assert RetestsFrom(g, Then(pass, RunNode(g.diverging, BreakableLoop(f, condition, body), s.end.rest, s.end.flags)), f, condition, w,
                       flags, trace, s.end.rest);
  }

  /** A pass that goes back to the header. */
  lemma ReturningPass(g: Program, f: Frame, condition: Option<LoopCondition>, start: BlockId, w: seq<bool>, w1: seq<bool>,
                      trace: seq<Event>, rest: seq<bool>)
    requires EntersBody(g, f, condition, start)
    requires g.Walk(1, f.header, w) == GraphRun(Retest(f.header, condition), Running(start, w1))
    requires GoesTo(g, start, w1, trace, f.header, rest, f.inner)
    ensures WalksTo(g, f.header, w, Retest(f.header, condition) + trace, Running(f.header, rest))
    ensures Breaks(g, f, w) <==> Breaks(g, f, rest)
    ensures |rest| <= |w|
    ensures |rest| == |w| ==> NeverEnds(g, f.header, w) && !Breaks(g, f, w)
  {
    HeaderThen(g, f, w, start, w1, Retest(f.header, condition), trace, f.header, rest);
    var n: nat :| n > 0 && g.Walk(n, f.header, w) == GraphRun(Retest(f.header, condition) + trace, Running(f.header, rest))
                  && StaysIn(g, f.header, w, n, f.inner + {f.header});
    BreakShift(g, f, w, n, rest);
    WalkSuffix(g, n, f.header, w);
    if |rest| == |w| {
      forall m: nat
        ensures g.Walk(m, f.header, w).end.Running? && !BreaksAfter(g, f, w, m)
      {
        Cycles(g, f.header, w, n, m);
        SpinNeverBreaks(g, f, w, n, m);
      }
    }
  }

  /** For any number of iterations: the loop breaks exactly when the graph does. */
  lemma {:induction false} FlaggedRuns(g: Program, f: Frame, condition: Option<LoopCondition>, body: seq<StructureNode>, start: BlockId,
                                       w: seq<bool>, flags: set<nat>)
    requires EntersBody(g, f, condition, start) && BodyIterates(g, body, start, f.header, f, true) && f.slot !in flags
    ensures Outcome(g, RunNode(g.diverging, BreakableLoop(f, condition, body), w, flags), f, condition, w, flags)
    decreases |w|
  {
    hide RunNode, RunSeq, Breaks, GoesTo, Retests, NeverAt, NeverEnds, FailsLater;
    var node, h, t := BreakableLoop(f, condition, body), f.header, Retest(f.header, condition);
    OnePass(g, f, condition, body, w, flags);
    HeaderStep(g, f, condition, start, w);
    if (condition.Some? && w == []) || !Continues(condition, w) {
      NoBreakAtHeader(g, f, condition, start, w);
    } else {
      var w1 := AfterTest(condition, w);
      var s := g.RunTree(body, w1, flags);
      assert Iterates(g, s, start, h, f, true, w1, flags);
      assert WalksTo(g, h, w, t, Running(start, w1));
      match s.end
      case Finished(rest, after) =>
        if after == flags + {f.slot} {
          BreakingPass(g, f, condition, body, start, w, w1, flags, s);
        } else {
          ReturningPass(g, f, condition, start, w, w1, s.trace, rest);
          if |rest| < |w| {
            FlaggedRuns(g, f, condition, body, start, rest, flags);
            PassedOn(g, f, condition, t + s.trace, rest, RunNode(g.diverging, node, rest, flags), w, flags);
          }
        }
      case Starved =>
        NoBreakInBody(g, f, w, start, w1);
        WalksThrough(g, h, w, t, start, w1, s.trace, Unfed);
      case Failed =>
        NoBreakInBody(g, f, w, start, w1);
        FailsThrough(g, h, w, t, start, w1, s.trace);
      case _ =>
    }
  }

  // ── When tree and graph agree ────────────────────────────────────────────

  /** The events of `trace` are the first events of the graph. */
  ghost predicate Follows(g: Program, b: BlockId, w: seq<bool>, trace: seq<Event>) {
    exists n: nat :: trace <= g.Walk(n, b, w).trace
  }

  lemma FirstVisit(g: Program, n: nat, x: BlockId, w: seq<bool>)
    ensures var t := g.Walk(n, x, w).trace; t == [] || t[0] == Visit(x)
  {
  }

  lemma NotFollowed(g: Program, b: BlockId, w: seq<bool>, t: seq<Event>, x: BlockId, rest: seq<bool>, more: seq<Event>, n: nat)
    requires WalksTo(g, b, w, t, Running(x, rest)) && more != [] && more[0] != Visit(x)
    ensures !(t + more <= g.Walk(n, b, w).trace)
  {
    hide StructureTree.Walk;
    var k: nat :| g.Walk(k, b, w) == GraphRun(t, Running(x, rest));
    if n <= k {
      if g.Walk(n, b, w).end.Running? {
        WalkCompose(g.blocks, g.diverging, n, k - n, b, w);
      } else {
        WalkEnded(g.blocks, g.diverging, n, k, b, w);
      }
    } else {
      WalkCompose(g.blocks, g.diverging, k, n - k, b, w);
      FirstVisit(g, n - k, x, rest);
      var later := g.Walk(n - k, x, rest).trace;
      assert later != [] ==> (t + later)[|t|] == Visit(x);
      assert (t + more)[|t|] == more[0];
    }
  }

  /** The tree of a loop does what the graph does if and only if the graph does not
      break on the outcomes; if it does, the tree is ahead by an event that the
      graph never has there. */
  lemma AgreesUnlessBroken(g: Program, f: Frame, condition: Option<LoopCondition>, body: seq<StructureNode>, start: BlockId, w: seq<bool>,
                           flags: set<nat>)
    requires EntersBody(g, f, condition, start) && BodyIterates(g, body, start, f.header, f, true) && f.slot !in flags
    ensures var r := RunNode(g.diverging, BreakableLoop(f, condition, body), w, flags);
            && (Keeps(g, r, f, condition, w, flags) <==> !Breaks(g, f, w))
            && (Breaks(g, f, w) ==> !Follows(g, f.header, w, r.trace))
            && (r.end.Finished? ==> (f.slot in r.end.flags <==> Breaks(g, f, w)))
  {
    hide RunNode, RunSeq, Breaks, BodyIterates;
    FlaggedRuns(g, f, condition, body, start, w, flags);
    var r := RunNode(g.diverging, BreakableLoop(f, condition, body), w, flags);
    if Breaks(g, f, w) {
      var t: seq<Event>, left: seq<bool> :| RetestsFrom(g, r, f, condition, w, flags, t, left);
      forall n: nat
        ensures !(r.trace <= g.Walk(n, f.header, w).trace)
      {
        NotFollowed(g, f.header, w, t, f.exit, left, Retest(f.header, condition), n);
      }
    }
  }

  /** A loop that was left by a break and is entered again, after whatever ran
      in between, skips the body the graph goes into. */
  lemma SkippedOnReentry(g: Program, f: Frame, condition: Option<LoopCondition>, body: seq<StructureNode>, start: BlockId,
                         between: seq<StructureNode>, w: seq<bool>, flags: set<nat>)
    requires EntersBody(g, f, condition, start)
    ensures var node := BreakableLoop(f, condition, body);
            var first := RunNode(g.diverging, node, w, flags);
            var r := g.RunTree([node] + between, w, flags);
            r.end.Finished? && f.slot in first.end.flags && (condition.Some? ==> r.end.rest != []) && Continues(condition, r.end.rest) ==>
              && g.RunTree([node] + between + [node], w, flags)
                   == Then(r, Run(Retest(f.header, condition), Finished(AfterTest(condition, r.end.rest), r.end.flags)))
              && WalksTo(g, f.header, r.end.rest, Retest(f.header, condition), Running(start, AfterTest(condition, r.end.rest)))
  {
    hide RunNode, RunSeq;
    var node := BreakableLoop(f, condition, body);
    RunConcat(g.diverging, [node], between, w, flags);
    RunOne(g, node, w, flags);
    RunConcat(g.diverging, [node] + between, [node], w, flags);
    var r := g.RunTree([node] + between, w, flags);
    if r.end.Finished? && f.slot in r.end.flags {
      RunOne(g, node, r.end.rest, r.end.flags);
      SkipsWhenSet(g, f, condition, body, r.end.rest, r.end.flags);
      HeaderStep(g, f, condition, start, r.end.rest);
    }
  }

  // ── Which bodies iterate ─────────────────────────────────────────────────

  /** A continue: nothing is left to run at the header. */
  lemma IteratesNothing(g: Program, mid: BlockId, f: Frame, mayBreak: bool)
    ensures BodyIterates(g, [], mid, mid, f, mayBreak)
  {
    forall w: seq<bool>, flags: set<nat>
      ensures Iterates(g, g.RunTree([], w, flags), mid, mid, f, mayBreak, w, flags)
    {
      assert g.Walk(0, mid, w) == GraphRun([], Running(mid, w));
    }
  }

  /** A break: the graph stands at the exit. */
  lemma IteratesBreak(g: Program, mid: BlockId, f: Frame)
    ensures BodyIterates(g, [SetEscapeFlag(f.slot)], f.exit, mid, f, true)
  {
    forall w: seq<bool>, flags: set<nat>
      ensures Iterates(g, g.RunTree([SetEscapeFlag(f.slot)], w, flags), f.exit, mid, f, true, w, flags)
    {
      RunOne(g, SetEscapeFlag(f.slot), w, flags);
      assert g.Walk(0, f.exit, w) == GraphRun([], Running(f.exit, w));
    }
  }

  lemma ThenIterates(g: Program, t: seq<Event>, rest: seq<bool>, s: Run, b: BlockId, m: BlockId, mid: BlockId, f: Frame, mayBreak: bool,
                     w: seq<bool>, flags: set<nat>)
    requires GoesTo(g, b, w, t, m, rest, f.inner) && Iterates(g, s, m, mid, f, mayBreak, rest, flags) && f.exit !in f.inner
    ensures Iterates(g, Then(Run(t, Finished(rest, flags)), s), b, mid, f, mayBreak, w, flags)
  {
    hide GoesTo, NeverAt;
    GoesWalks(g, b, w, t, m, rest, f.inner);
    match s.end
    case Finished(left, after) =>
      if after == flags && GoesTo(g, m, rest, s.trace, mid, left, f.inner) {
        GoesThrough(g, b, w, t, m, rest, s.trace, mid, left, f.inner);
      } else {
        GoesThrough(g, b, w, t, m, rest, s.trace, f.exit, left, f.inner);
      }
    case Starved =>
      WalksThrough(g, b, w, t, m, rest, s.trace, Unfed);
      NeverThrough(g, b, w, t, m, rest, f.exit, f.inner);
    case Failed =>
      FailsThrough(g, b, w, t, m, rest, s.trace);
      NeverThrough(g, b, w, t, m, rest, f.exit, f.inner);
    case _ =>
  }

  /** What follows a stretch that does not break. */
  lemma IteratesThen(g: Program, a: seq<StructureNode>, b: seq<StructureNode>, entry: BlockId, m: BlockId, mid: BlockId, f: Frame, mayBreak: bool)
    requires BodyIterates(g, a, entry, m, f, false) && BodyIterates(g, b, m, mid, f, mayBreak) && f.exit !in f.inner
    ensures BodyIterates(g, a + b, entry, mid, f, mayBreak)
  {
    forall w: seq<bool>, flags: set<nat> | f.slot !in flags
      ensures Iterates(g, g.RunTree(a + b, w, flags), entry, mid, f, mayBreak, w, flags)
    {
      hide Iterates, GoesTo, NeverAt;
      assert Iterates(g, g.RunTree(a, w, flags), entry, m, f, false, w, flags);
      RunConcat(g.diverging, a, b, w, flags);
      IteratesParts(g, a, b, entry, m, mid, f, mayBreak, w, flags);
    }
  }

  lemma IteratesParts(g: Program, a: seq<StructureNode>, b: seq<StructureNode>, entry: BlockId, m: BlockId, mid: BlockId, f: Frame,
                      mayBreak: bool, w: seq<bool>, flags: set<nat>)
    requires Iterates(g, g.RunTree(a, w, flags), entry, m, f, false, w, flags) && f.slot !in flags && f.exit !in f.inner
    requires BodyIterates(g, b, m, mid, f, mayBreak)
    ensures var r := g.RunTree(a, w, flags);
            Iterates(g, if r.end.Finished? then Then(r, g.RunTree(b, r.end.rest, r.end.flags)) else r, entry, mid, f, mayBreak, w, flags)
  {
    hide GoesTo, NeverAt;
    var r := g.RunTree(a, w, flags);
    if r.end.Finished? {
      assert Iterates(g, g.RunTree(b, r.end.rest, flags), m, mid, f, mayBreak, r.end.rest, flags);
      ThenIterates(g, r.trace, r.end.rest, g.RunTree(b, r.end.rest, flags), entry, m, mid, f, mayBreak, w, flags);
    }
  }

  /** One step of the graph, with no node of its own for the terminator. */
  lemma IteratesJump(g: Program, b: BlockId, t: BlockId, f: Frame)
    requires b < |g.blocks| && (g.blocks[b].terminator == Jump(t) || g.blocks[b].terminator == Fallthrough(t)) && b in f.inner
    ensures BodyIterates(g, [Linear(b)], b, t, f, false)
  {
    forall w: seq<bool>, flags: set<nat>
      ensures Iterates(g, g.RunTree([Linear(b)], w, flags), b, t, f, false, w, flags)
    {
      RunOne(g, Linear(b), w, flags);
      OneStep(g, b, w, [Visit(b)], t, w, f.inner);
    }
  }

  lemma OneStep(g: Program, b: BlockId, w: seq<bool>, t: seq<Event>, x: BlockId, rest: seq<bool>, inside: set<BlockId>)
    requires b in inside && g.Walk(1, b, w) == Prepend(t, g.Walk(0, x, rest))
    ensures GoesTo(g, b, w, t, x, rest, inside)
  {
    assert g.Walk(0, x, rest) == GraphRun([], Running(x, rest));
    assert g.Walk(0, b, w) == GraphRun([], Running(b, w));
    assert g.Walk(1, b, w) == GraphRun(t, Running(x, rest));
    assert StaysIn(g, b, w, 1, inside);
  }

  /** A call that returns goes on; one that does not fails inside the loop. */
  lemma IteratesCall(g: Program, b: BlockId, callee: BlockId, continuation: BlockId, f: Frame)
    requires b < |g.blocks| && g.blocks[b].terminator == Call(callee, continuation) && b in f.inner && f.exit !in f.inner
    ensures BodyIterates(g, [Linear(b), CallNode(callee)], b, continuation, f, false)
  {
    var trace := [Visit(b), Called(callee)];
    forall w: seq<bool>, flags: set<nat>
      ensures Iterates(g, g.RunTree([Linear(b), CallNode(callee)], w, flags), b, continuation, f, false, w, flags)
    {
      RunTwo(g, Linear(b), CallNode(callee), w, flags);
      assert [Visit(b)] + [Called(callee)] == trace;
      if callee in g.diverging {
        FailsAtOnce(g, b, w, trace);
        EndsAtOnce(g, b, w, f.exit);
      } else {
        OneStep(g, b, w, trace, continuation, w, f.inner);
      }
    }
  }

  lemma EndsAtOnce(g: Program, b: BlockId, w: seq<bool>, x: BlockId)
    requires !g.Walk(1, b, w).end.Running? && b != x
    ensures NeverAt(g, b, w, x)
  {
    assert g.Walk(0, b, w).end == Running(b, w);
    forall n: nat | n > 0
      ensures !g.Walk(n, b, w).end.Running?
    {
      WalkEnded(g.blocks, g.diverging, 1, n, b, w);
    }
  }

  /** A test whose arms iterate; nothing may follow it if one of them breaks. */
  lemma IteratesIf(g: Program, b: BlockId, t: Terminator, thenBranch: seq<StructureNode>, elseBranch: seq<StructureNode>, mid: BlockId,
                   f: Frame, mayBreak: bool)
    requires b < |g.blocks| && g.blocks[b].terminator == t && t.JumpIf? && b in f.inner && f.exit !in f.inner
    requires BodyIterates(g, thenBranch, t.thenBlock, mid, f, mayBreak) && BodyIterates(g, elseBranch, t.elseBlock, mid, f, mayBreak)
    ensures BodyIterates(g, [Linear(b), IfThenElse(b, t.condition, thenBranch, elseBranch)], b, mid, f, mayBreak)
  {
    var node := IfThenElse(b, t.condition, thenBranch, elseBranch);
    var trace := [Visit(b), Tested(t.condition)];
    forall w: seq<bool>, flags: set<nat> | f.slot !in flags
      ensures Iterates(g, g.RunTree([Linear(b), node], w, flags), b, mid, f, mayBreak, w, flags)
    {
      RunTwo(g, Linear(b), node, w, flags);
      assert [Visit(b)] + [Tested(t.condition)] == trace;
      if w == [] {
        assert g.Walk(1, b, w) == GraphRun(trace, Unfed);
        EndsAtOnce(g, b, w, f.exit);
      } else {
        var x := if w[0] then t.thenBlock else t.elseBlock;
        var s := g.RunTree(if w[0] then thenBranch else elseBranch, w[1..], flags);
        assert Iterates(g, s, x, mid, f, mayBreak, w[1..], flags);
        OneStep(g, b, w, trace, x, w[1..], f.inner);
        ThenIterates(g, trace, w[1..], s, b, x, mid, f, mayBreak, w, flags);
        assert [Visit(b)] + ([Tested(t.condition)] + s.trace) == trace + s.trace;
      }
    }
  }

  /** An assertion whose dropped arm always fails without reaching the exit. */
  lemma IteratesAssert(g: Program, b: BlockId, t: Terminator, k: nat, f: Frame)
    requires b < |g.blocks| && g.blocks[b].terminator == t && t.JumpIf? && b in f.inner && f.exit !in f.inner
    requires forall w: seq<bool> :: |w| >= k ==> FailsOn(g, t.elseBlock, w, [])
    requires forall w: seq<bool> :: NeverAt(g, t.elseBlock, w, f.exit)
    ensures BodyIterates(g, [Linear(b), BoolAssert(b, t.condition)], b, t.thenBlock, f, false)
  {
    var trace := [Visit(b), Tested(t.condition)];
    SimulatesAssert(g, b, t, k);
    forall w: seq<bool>, flags: set<nat>
      ensures Iterates(g, g.RunTree([Linear(b), BoolAssert(b, t.condition)], w, flags), b, t.thenBlock, f, false, w, flags)
    {
      assert SimulatesOn(g, [Linear(b), BoolAssert(b, t.condition)], b, At(t.thenBlock), w, flags);
      RunTwo(g, Linear(b), BoolAssert(b, t.condition), w, flags);
      assert [Visit(b)] + [Tested(t.condition)] == trace;
      if w == [] {
        assert g.Walk(1, b, w) == GraphRun(trace, Unfed);
        EndsAtOnce(g, b, w, f.exit);
      } else if w[0] {
        OneStep(g, b, w, trace, t.thenBlock, w[1..], f.inner);
      } else {
        OneStep(g, b, w, trace, t.elseBlock, w[1..], f.inner);
        NeverThrough(g, b, w, trace, t.elseBlock, w[1..], f.exit, f.inner);
      }
    }
  }

  /** A loop inside that is left by its condition only. */
  lemma {:induction false} InnerLoopRuns(g: Program, h: BlockId, t: Terminator, p: CondPolarity, body: seq<StructureNode>, f: Frame,
                                         w: seq<bool>, flags: set<nat>)
    requires h < |g.blocks| && g.blocks[h].terminator == t && t.JumpIf? && h in f.inner && f.exit !in f.inner && f.slot !in flags
    requires BodyIterates(g, body, Inside(t, p), h, f, false)
    ensures Iterates(g, RunNode(g.diverging, Loop(h, [Linear(h)], Some(LoopCondition(t.condition, p)), None, body), w, flags), h,
                     Outside(t, p), f, false, w, flags)
    decreases |w|
  {
    var node := Loop(h, [Linear(h)], Some(LoopCondition(t.condition, p)), None, body);
    var trace := [Visit(h), Tested(t.condition)];
    RunOne(g, Linear(h), w, flags);
    assert [Visit(h)] + [Tested(t.condition)] == trace;
    if w == [] {
      assert g.Walk(1, h, w) == GraphRun(trace, Unfed);
      EndsAtOnce(g, h, w, f.exit);
    } else {
      var w1 := w[1..];
      OneStep(g, h, w, trace, if w[0] then t.thenBlock else t.elseBlock, w1, f.inner);
      if w[0] == p.ContinueOnTrue? {
        var s := g.RunTree(body, w1, flags);
        assert Iterates(g, s, Inside(t, p), h, f, false, w1, flags);
        ThenIterates(g, trace, w1, s, h, Inside(t, p), h, f, false, w, flags);
        var pass := Then(Run(trace, Finished(w1, flags)), s);
        if pass.end.Finished? {
          InnerLoopRuns(g, h, t, p, body, f, pass.end.rest, flags);
          ThenIterates(g, pass.trace, pass.end.rest, RunNode(g.diverging, node, pass.end.rest, flags), h, h, Outside(t, p), f, false, w, flags);
        }
      }
    }
  }

  lemma IteratesLoop(g: Program, h: BlockId, t: Terminator, p: CondPolarity, body: seq<StructureNode>, f: Frame)
    requires h < |g.blocks| && g.blocks[h].terminator == t && t.JumpIf? && h in f.inner && f.exit !in f.inner
    requires BodyIterates(g, body, Inside(t, p), h, f, false)
    ensures BodyIterates(g, [Loop(h, [Linear(h)], Some(LoopCondition(t.condition, p)), None, body)], h, Outside(t, p), f, false)
  {
    var node := Loop(h, [Linear(h)], Some(LoopCondition(t.condition, p)), None, body);
    forall w: seq<bool>, flags: set<nat> | f.slot !in flags
      ensures Iterates(g, g.RunTree([node], w, flags), h, Outside(t, p), f, false, w, flags)
    {
      InnerLoopRuns(g, h, t, p, body, f, w, flags);
      RunOne(g, node, w, flags);
    }
  }

  // ── An example ───────────────────────────────────────────────────────────

  /** The blocks of a loop without condition that two tests leave for the same
      block, and the tree that the walker makes of them. */
  const TWO_BREAKS: seq<Block> := [
    Block(0, 1, Jump(1)), Block(1, 2, JumpIf(2, 6, 2)), Block(2, 3, Jump(3)), Block(3, 4, JumpIf(4, 6, 4)),
    Block(4, 5, Jump(5)), Block(5, 6, Jump(0)), Block(6, 7, Stop)]

  const TWO_BREAKS_FRAME := Frame(0, {1, 2, 3, 4, 5}, 6, 0)

  function WayRound(): seq<StructureNode> {
    [Linear(4)] + ([Linear(5)] + [])
  }

  /** The second test, its break and its way round. */
  function SecondTest(): seq<StructureNode> {
    [Linear(3), IfThenElse(3, 4, [SetEscapeFlag(0)], WayRound())]
  }

  function TwoBreaksBody(): seq<StructureNode> {
    [Linear(1), IfThenElse(1, 2, [SetEscapeFlag(0)], [Linear(2)] + SecondTest())]
  }

  /** The example is such a loop. */
  lemma TwoBreaksIterate()
    ensures var g := Program(TWO_BREAKS, {});
            EntersBody(g, TWO_BREAKS_FRAME, None, 1) && BodyIterates(g, TwoBreaksBody(), 1, 0, TWO_BREAKS_FRAME, true)
  {
    hide BodyIterates;
    var g, f := Program(TWO_BREAKS, {}), TWO_BREAKS_FRAME;
    IteratesBreak(g, 0, f);
    IteratesNothing(g, 0, f, true);
    IteratesJump(g, 5, 0, f);
    IteratesThen(g, [Linear(5)], [], 5, 0, 0, f, true);
    IteratesJump(g, 4, 5, f);
    IteratesThen(g, [Linear(4)], [Linear(5)] + [], 4, 5, 0, f, true);
    IteratesIf(g, 3, TWO_BREAKS[3].terminator, [SetEscapeFlag(0)], WayRound(), 0, f, true);
    IteratesJump(g, 2, 3, f);
    IteratesThen(g, [Linear(2)], SecondTest(), 2, 3, 0, f, true);
    IteratesIf(g, 1, TWO_BREAKS[1].terminator, [SetEscapeFlag(0)], [Linear(2)] + SecondTest(), 0, f, true);
  }

  /** Left by the first break, it visits its header once in the graph and twice in
      the tree. */
  lemma HeaderTwice()
    ensures var g := Program(TWO_BREAKS, {});
            && Breaks(g, TWO_BREAKS_FRAME, [true])
            && g.Walk(2, 0, [true]) == GraphRun([Visit(0), Visit(1), Tested(2)], Running(6, []))
            && RunNode(g.diverging, BreakableLoop(TWO_BREAKS_FRAME, None, TwoBreaksBody()), [true], {})
                 == Run([Visit(0), Visit(1), Tested(2), Visit(0)], Finished([], {0}))
  {
    var g, f, w := Program(TWO_BREAKS, {}), TWO_BREAKS_FRAME, [true];
    TwoBreaksWalk();
    assert BreaksAfter(g, f, w, 2);
    TwoBreaksTree();
  }

  lemma TwoBreaksWalk()
    ensures var g := Program(TWO_BREAKS, {});
            && g.Walk(0, 0, [true]) == GraphRun([], Running(0, [true]))
            && g.Walk(1, 0, [true]) == GraphRun([Visit(0)], Running(1, [true]))
            && g.Walk(2, 0, [true]) == GraphRun([Visit(0), Visit(1), Tested(2)], Running(6, []))
  {
    var g, w := Program(TWO_BREAKS, {}), [true];
    assert w[1..] == [];
    assert g.Walk(0, 6, []) == GraphRun([], Running(6, []));
    assert g.Walk(0, 1, w) == GraphRun([], Running(1, w));
    assert g.Walk(1, 1, w) == GraphRun([Visit(1), Tested(2)], Running(6, []));
  }

  lemma TwoBreaksTree()
    ensures RunNode({}, BreakableLoop(TWO_BREAKS_FRAME, None, TwoBreaksBody()), [true], {})
         == Run([Visit(0), Visit(1), Tested(2), Visit(0)], Finished([], {0}))
  {
    var g, f, w := Program(TWO_BREAKS, {}), TWO_BREAKS_FRAME, [true];
    FirstBreak();
    OnePass(g, f, None, TwoBreaksBody(), w, {});
    SkipsWhenSet(g, f, None, TwoBreaksBody(), [], {0});
  }

  lemma FirstBreak()
    ensures RunSeq({}, TwoBreaksBody(), [true], {}) == Run([Visit(1), Tested(2)], Finished([], {0}))
  {
    var g, w := Program(TWO_BREAKS, {}), [true];
    assert w[1..] == [];
    RunTwo(g, Linear(1), TwoBreaksBody()[1], w, {});
    RunOne(g, SetEscapeFlag(0), [], {});
  }
}
