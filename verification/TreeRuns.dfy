/** From the bytecode to the tree: the trees of a function do what its bytecode
    does. */
module TreeRuns {
  import opened CfgTypes
  import opened BlockSplitting
  import opened StructureTree
  import opened BytecodeRuns
  import opened Rooted
  import opened CfgBuild
  import opened Simulation
  import opened RegionFacts
  import opened Structurer

  /** The bytecode of a body: where it starts, and the procedures that never
      return. No conditional jump is taken into a procedure. */
  datatype Source = Source(code: seq<Opcode>, diverging: set<nat>, start: nat) {
    function Run(k: nat, w: seq<bool>): CodeRun {
      Execute(code, CallLocations(code), diverging, k, start, w)
    }
  }

  ghost predicate CodeRunsTo(s: Source, w: seq<bool>, actions: seq<Action>, end: CodeEnd) {
    exists k: nat :: s.Run(k, w) == CodeRun(actions, end)
  }

  /** The bytecode traps, or calls a procedure that does. */
  ghost predicate CodeFails(s: Source, w: seq<bool>, actions: seq<Action>) {
    CodeRunsTo(s, w, actions, Failing) || CodeRunsTo(s, w, actions, Lost)
  }

  ghost predicate CodeStops(s: Source, w: seq<bool>, actions: seq<Action>, rest: seq<bool>) {
    CodeRunsTo(s, w, actions, Returned(rest)) || CodeRunsTo(s, w, actions, Halted(rest))
  }

  ghost predicate CodeFailsAfter(s: Source, w: seq<bool>, actions: seq<Action>) {
    exists all :: CodeFails(s, w, all) && actions <= all
  }

  ghost predicate CodeFailsWithin(s: Source, w: seq<bool>, actions: seq<Action>, k: nat) {
    forall more: seq<bool> :: |more| >= k ==> CodeFailsAfter(s, w + more, actions)
  }

  ghost predicate CodeFailsLater(s: Source, w: seq<bool>, actions: seq<Action>) {
    exists k: nat :: CodeFailsWithin(s, w, actions, k)
  }

  /** The tree finishes exactly when the bytecode returns or stops, after the same
      opcodes, tests and calls and with the same outcomes left; it starves only
      where the bytecode waits for an outcome; when the bytecode fails, the tree
      has failed; when the tree fails, the bytecode fails on every long enough
      supply of further outcomes. */
  ghost predicate TreeRunsCode(s: Source, blocks: seq<Block>, r: Run, w: seq<bool>) {
    && (r.end.Finished? ==> CodeStops(s, w, Meanings(blocks, r.trace), r.end.rest))
    && (forall actions, rest :: CodeStops(s, w, actions, rest) ==> r.end == Finished(rest, {}) && actions == Meanings(blocks, r.trace))
    && (r.end.Starved? ==> CodeRunsTo(s, w, Meanings(blocks, r.trace), Undecided))
    && (forall actions :: CodeFails(s, w, actions) ==> r.end.Failed? && Meanings(blocks, r.trace) <= actions)
    && (r.end.Failed? ==> CodeFailsLater(s, w, Meanings(blocks, r.trace)))
    && !r.end.Spinning? && !r.end.Unemitted?
  }

  ghost function SourceOf(code: seq<Opcode>, c: Cfg, entry: BlockId): Source
    requires entry < |c.blocks|
  {
    Source(code, Starts(c.blocks, ProgramOf(c).diverging), c.blocks[entry].start)
  }

  lemma MeaningsPrefix(blocks: seq<Block>, a: seq<Event>, b: seq<Event>)
    requires a <= b
    ensures Meanings(blocks, a) <= Meanings(blocks, b)
  {
    assert b == a + b[|a|..];
    MeaningsConcat(blocks, a, b[|a|..]);
  }

  /** A run of the graph that has ended is one of the bytecode. */
  lemma GraphEndsCodeEnds(code: seq<Opcode>, c: Cfg, entry: BlockId, w: seq<bool>, trace: seq<Event>, end: GraphEnd)
    requires entry < |c.blocks| && c.blocks[entry].terminator != Unreachable && RunsAs(code, CallLocations(code), c.blocks)
    requires WalksTo(ProgramOf(c), entry, w, trace, end)
    ensures var s := SourceOf(code, c, entry);
            && (end.Stopped? ==> CodeStops(s, w, Meanings(c.blocks, trace), end.rest))
            && (end.Trapped? ==> CodeFails(s, w, Meanings(c.blocks, trace)))
            && (end.Unfed? ==> CodeRunsTo(s, w, Meanings(c.blocks, trace), Undecided))
  {
    var g, s := ProgramOf(c), SourceOf(code, c, entry);
    var n: nat :| g.Walk(n, entry, w) == GraphRun(trace, end);
    assert StepsAs(code, CallLocations(code), c.blocks, g.diverging, n, entry, w);
    hide RunsAs;
    var k: nat :| k >= n && Alike(c.blocks, StructureTree.Walk(c.blocks, g.diverging, n, entry, w),
                                  Execute(code, CallLocations(code), Starts(c.blocks, g.diverging), k, c.blocks[entry].start, w));
    assert s.Run(k, w) == CodeRun(Meanings(c.blocks, trace), s.Run(k, w).end);
  }

  /** A run of the bytecode that has ended is one of the graph. */
  lemma CodeEndsGraphEnds(code: seq<Opcode>, c: Cfg, entry: BlockId, w: seq<bool>, actions: seq<Action>, end: CodeEnd)
    returns (trace: seq<Event>, graphEnd: GraphEnd)
    requires entry < |c.blocks| && c.blocks[entry].terminator != Unreachable && RunsAs(code, CallLocations(code), c.blocks)
    requires CodeRunsTo(SourceOf(code, c, entry), w, actions, end) && !end.Before?
    ensures WalksTo(ProgramOf(c), entry, w, trace, graphEnd) && actions == Meanings(c.blocks, trace)
    ensures end.Returned? || end.Halted? ==> graphEnd == Stopped(end.rest)
    ensures end.Failing? || end.Lost? ==> graphEnd == Trapped
  {
    var g, s := ProgramOf(c), SourceOf(code, c, entry);
    var n: nat :| s.Run(n, w) == CodeRun(actions, end);
    assert StepsAs(code, CallLocations(code), c.blocks, g.diverging, n, entry, w);
    hide RunsAs;
    var k: nat :| k >= n && Alike(c.blocks, StructureTree.Walk(c.blocks, g.diverging, n, entry, w),
                                  Execute(code, CallLocations(code), Starts(c.blocks, g.diverging), k, c.blocks[entry].start, w));
    CodeEnded(code, CallLocations(code), s.diverging, n, k, s.start, w);
    trace, graphEnd := g.Walk(n, entry, w).trace, g.Walk(n, entry, w).end;
  }

  /** A tree that agrees with the graph agrees with the bytecode. */
  lemma TreeAgreesWithCode(code: seq<Opcode>, c: Cfg, entry: BlockId, nodes: seq<StructureNode>, w: seq<bool>)
    requires entry < |c.blocks| && c.blocks[entry].terminator != Unreachable && RunsAs(code, CallLocations(code), c.blocks)
    requires RunsAgree(ProgramOf(c), nodes, entry, w)
    ensures TreeRunsCode(SourceOf(code, c, entry), c.blocks, ProgramOf(c).RunTree(nodes, w, {}), w)
  {
    var g, s, r := ProgramOf(c), SourceOf(code, c, entry), ProgramOf(c).RunTree(nodes, w, {});
    hide RunsAs;
    forall actions, rest | CodeStops(s, w, actions, rest)
      ensures r.end == Finished(rest, {}) && actions == Meanings(c.blocks, r.trace)
    {
      var end := if CodeRunsTo(s, w, actions, Returned(rest)) then Returned(rest) else Halted(rest);
      var trace, graphEnd := CodeEndsGraphEnds(code, c, entry, w, actions, end);
      assert r == Run(trace, Finished(rest, {}));
    }
    forall actions | CodeFails(s, w, actions)
      ensures r.end.Failed? && Meanings(c.blocks, r.trace) <= actions
    {
      var end := if CodeRunsTo(s, w, actions, Failing) then Failing else Lost;
      var trace, graphEnd := CodeEndsGraphEnds(code, c, entry, w, actions, end);
      MeaningsPrefix(c.blocks, r.trace, trace);
    }
    match r.end
    case Finished(rest, _) => GraphEndsCodeEnds(code, c, entry, w, r.trace, Stopped(rest));
    case Starved => GraphEndsCodeEnds(code, c, entry, w, r.trace, Unfed);
    case Failed => FailureCarriesOver(code, c, entry, w, r.trace);
    case _ =>
  }

  lemma FailureCarriesOver(code: seq<Opcode>, c: Cfg, entry: BlockId, w: seq<bool>, trace: seq<Event>)
    requires entry < |c.blocks| && c.blocks[entry].terminator != Unreachable && RunsAs(code, CallLocations(code), c.blocks)
    requires FailsLater(ProgramOf(c), entry, w, trace)
    ensures CodeFailsLater(SourceOf(code, c, entry), w, Meanings(c.blocks, trace))
  {
    hide RunsAs;
    var g, s := ProgramOf(c), SourceOf(code, c, entry);
    var k: nat :| FailsWithin(g, entry, w, trace, k);
    forall more: seq<bool> | |more| >= k
      ensures CodeFailsAfter(s, w + more, Meanings(c.blocks, trace))
    {
      assert FailsOn(g, entry, w + more, trace);
      var n: nat :| g.Walk(n, entry, w + more).end.Trapped? && trace <= g.Walk(n, entry, w + more).trace;
      var all := g.Walk(n, entry, w + more).trace;
      assert WalksTo(g, entry, w + more, all, Trapped);
      GraphEndsCodeEnds(code, c, entry, w + more, all, Trapped);
      MeaningsPrefix(c.blocks, trace, all);
    }
    assert CodeFailsWithin(s, w, Meanings(c.blocks, trace), k);
  }

  /** For every sequence of outcomes a body does what its bytecode does. */
  ghost predicate BodyRunsCode(code: seq<Opcode>, c: Cfg, entry: BlockId, nodes: seq<StructureNode>)
    requires entry < |c.blocks|
  {
    forall w: seq<bool> :: TreeRunsCode(SourceOf(code, c, entry), c.blocks, ProgramOf(c).RunTree(nodes, w, {}), w)
  }

  /** A body is entered at a block that can be reached. */
  lemma RootReachable(c: Cfg, entry: BlockId)
    requires ValidCfg(c) && entry in Roots(c) && entry < |c.blocks|
    ensures c.blocks[entry].terminator != Unreachable
  {
    assert RootPath(c.callerSucc, Roots(c), [entry], entry);
  }

  lemma BodyFollowsCode(code: seq<Opcode>, c: Cfg, entry: BlockId, nodes: seq<StructureNode>)
    requires ValidCfg(c) && entry in Roots(c) && entry < |c.blocks| && RunsAs(code, CallLocations(code), c.blocks)
    requires BodyAgrees(c, entry, nodes)
    ensures BodyRunsCode(code, c, entry, nodes)
  {
    RootReachable(c, entry);
    hide RunsAs, ValidCfg, RunsAgree, TreeRunsCode;
    forall w: seq<bool>
      ensures TreeRunsCode(SourceOf(code, c, entry), c.blocks, ProgramOf(c).RunTree(nodes, w, {}), w)
    {
      TreeAgreesWithCode(code, c, entry, nodes, w);
    }
  }

  /** Every body of a structured function does what the bytecode does from the
      first opcode of its entry block; the main body starts with the first opcode
      of all. */
  lemma FunctionRunsCode(code: seq<Opcode>, c: Cfg, f: StructuredFunction)
    requires ValidCfg(c) && FinalBlocks(code, c.blocks) && FunctionAgrees(c, f)
    ensures |c.blocks| > 0 && c.blocks[0].start == 0 && BodyRunsCode(code, c, 0, f.main)
    ensures |f.procedures| == |c.procedures|
    ensures forall i :: 0 <= i < |c.procedures| ==>
              && f.procedures[i].entry == c.procedures[i].entry < |c.blocks|
              && BodyRunsCode(code, c, c.procedures[i].entry, f.procedures[i].body)
  {
    FinalRuns(code, c.blocks);
    EntriesInRange(c);
    hide ValidCfg, FinalBlocks, Matches, RunsAs, BodyAgrees, BodyRunsCode;
    BodyFollowsCode(code, c, 0, f.main);
    forall i | 0 <= i < |c.procedures|
      ensures BodyRunsCode(code, c, c.procedures[i].entry, f.procedures[i].body)
    {
      BodyFollowsCode(code, c, c.procedures[i].entry, f.procedures[i].body);
    }
  }
}
