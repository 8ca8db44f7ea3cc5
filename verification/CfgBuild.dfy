/** `Cfg::build`: all analyses in order, and what the result guarantees. */
module CfgBuild {
  import opened Graphs
  import opened CfgTypes
  import opened DomTrees
  import opened Rooted
  import opened Loops
  import opened Views
  import opened Divergence
  import opened PostDominance
  import opened BlockSplitting
  import opened StructureTree
  import opened BytecodeRuns
  import opened Rewrites

  datatype Cfg = Cfg(
    blocks: seq<Block>,
    successors: Graph,
    predecessors: Graph,
    callerSucc: Graph,
    callerPred: Graph,
    dominators: DomTree,
    postDominators: DomTree,
    loops: seq<NaturalLoop>,
    procedures: seq<Procedure>,
    divergentBlocks: set<BlockId>)

  /** Procedures whose entry block is a trap with an orphan return. */
  ghost function NonReturning(blocks: seq<Block>): set<BlockId> {
    set e: nat | e < |blocks| && IsCallTarget(blocks, e, |blocks|) && blocks[e].terminator.TrapReturn?
  }

  function Entries(procedures: seq<Procedure>): seq<BlockId> {
    seq(|procedures|, i requires 0 <= i < |procedures| => procedures[i].entry)
  }

  function Roots(c: Cfg): seq<BlockId> {
    [0] + Entries(c.procedures)
  }

  ghost function LiveSucc(c: Cfg): Graph {
    LiveView(c.callerSucc, c.divergentBlocks)
  }

  /** The views agree with the terminators. */
  ghost predicate ValidViews(c: Cfg) {
    && |c.blocks| > 0 && WellFormed(c.blocks)
    && c.successors == ComputeSuccessors(c.blocks) && Inverse(c.successors, c.predecessors)
    && c.callerSucc == CallerView(c.blocks, c.successors, NonReturning(c.blocks))
    && Inverse(c.callerSucc, c.callerPred)
  }

  ghost predicate ValidProcedures(c: Cfg)
    requires |c.blocks| == |c.successors| == |c.callerSucc|
  {
    && (forall i :: 0 <= i < |c.procedures| ==> c.procedures[i].entry < |c.blocks|)
    && (forall i {:trigger ValidProcedure(c.blocks, c.successors, c.callerSucc, c.procedures[i])} :: 0 <= i < |c.procedures| ==>
          ValidProcedure(c.blocks, c.successors, c.callerSucc, c.procedures[i]))
    && (forall b {:trigger c.blocks[b].terminator.callee} :: 0 <= b < |c.blocks| && c.blocks[b].terminator.Call? ==>
          exists i :: 0 <= i < |c.procedures| && c.procedures[i].entry == c.blocks[b].terminator.callee)
    && (forall i, j :: 0 <= i < j < |c.procedures| ==> c.procedures[i].entry < c.procedures[j].entry)
  }

  /** What every accepted graph satisfies. */
  ghost predicate ValidCfg(c: Cfg) {
    && ValidViews(c)
    && ValidProcedures(c)
    && ValidDomTree(c.dominators, c.callerSucc, Roots(c))
    && (forall b: nat {:trigger Diverges(c.callerSucc, Leaves(c.blocks, NonReturning(c.blocks)), b)} ::
          b in c.divergentBlocks <==> Diverges(c.callerSucc, Leaves(c.blocks, NonReturning(c.blocks)), b))
    && ValidPostDom(c.postDominators, LiveSucc(c), c.blocks)
    && AreLoops(c.callerSucc, Roots(c), c.loops)
    && Reducible(c.dominators, c.callerSucc, Roots(c))
    && (forall b: nat :: b < |c.blocks| && c.blocks[b].terminator.Unreachable? ==> !RootReach(c.callerSucc, Roots(c), b))
  }

  // ── Facts the stages hand to each other ──────────────────────────────────

  lemma InversePreds(g: Graph, h: Graph)
    requires Inverse(g, h) && InRange(h)
    ensures PredsOf(g, h)
  {
    forall u: nat, v: nat | u < |g| && v < |g|
      ensures Edge(g, u, v) <==> Edge(h, v, u)
    {
      InverseEdge(g, h, u, v);
    }
  }

  lemma SuccessorsInRange(blocks: seq<Block>)
    requires WellFormed(blocks)
    ensures InRange(ComputeSuccessors(blocks))
    ensures forall de: set<BlockId> :: InRange(CallerView(blocks, ComputeSuccessors(blocks), de))
  {
    var g := ComputeSuccessors(blocks);
    forall b: nat, i | b < |blocks| && 0 <= i < |g[b]|
      ensures g[b][i] < |blocks|
    {
      assert g[b] == Targets(blocks[b].terminator);
      assert g[b][i] in Targets(blocks[b].terminator);
    }
    forall de: set<BlockId>
      ensures InRange(CallerView(blocks, g, de))
    {
      var c := CallerView(blocks, g, de);
      forall b: nat, i | b < |blocks| && 0 <= i < |c[b]|
        ensures c[b][i] < |blocks|
      {
        assert g[b] == Targets(blocks[b].terminator);
        assert c[b] == CallerSuccessors(blocks[b].terminator, g[b], de);
        if blocks[b].terminator.Call? {
          assert blocks[b].terminator.continuation in Targets(blocks[b].terminator);
        }
      }
    }
  }

  lemma LiveInRange(g: Graph, dead: set<nat>)
    requires InRange(g)
    ensures InRange(LiveView(g, dead))
  {
    var l := LiveView(g, dead);
    forall b: nat, i | b < |l| && 0 <= i < |l[b]|
      ensures l[b][i] < |l|
    {
      assert Edge(l, b, l[b][i]);
      assert l[b][i] in g[b];
    }
  }

  lemma LeavesHaveNoSuccessors(blocks: seq<Block>, de: set<BlockId>)
    ensures forall b: nat :: Leaf(blocks, de, b) ==> CallerView(blocks, ComputeSuccessors(blocks), de)[b] == []
  {
  }

  lemma EnteredBy(g: Graph, roots: seq<nat>, p: seq<nat>, b: nat)
    requires RootPath(g, roots, p, b)
    ensures b in roots || exists u: nat :: Edge(g, u, b)
  {
    if |p| > 1 {
      assert Edge(g, p[|p| - 2], p[|p| - 2 + 1]);
    }
  }

  /** A retagged orphan return is entered by nothing. */
  lemma OrphanUnreached(g: Graph, roots: seq<nat>, b: nat)
    requires (forall u: nat :: !Edge(g, u, b)) && b !in roots
    ensures !RootReach(g, roots, b)
  {
    if RootReach(g, roots, b) {
      var p :| RootPath(g, roots, p, b);
      EnteredBy(g, roots, p, b);
    }
  }

  // ── From the bytecode to the blocks ──────────────────────────────────────

  /** The blocks before the rewrites: each ends with the terminator of its last
      opcode. */
  ghost predicate Parsed(code: seq<Opcode>, blocks: seq<Block>) {
    exists ranges, index :: Classified(code, ranges, index, blocks)
  }

  /** A trap and, behind it, a return no edge enters. */
  ghost predicate TrapReturnPair(blocks: seq<Block>, i: nat) {
    && 0 < i < |blocks| && blocks[i - 1].terminator.Trap?
    && blocks[i].terminator.Return? && blocks[i].endExclusive - blocks[i].start == 1
    && forall u: nat :: !Edge(ComputeSuccessors(blocks), u, i)
  }

  ghost function PairTerminator(blocks: seq<Block>, i: nat): Terminator
    requires i < |blocks|
  {
    if TrapReturnPair(blocks, i + 1) then TrapReturn
    else if TrapReturnPair(blocks, i) then Unreachable
    else blocks[i].terminator
  }

  ghost predicate PairsRewritten(parsed: seq<Block>, blocks: seq<Block>) {
    |blocks| == |parsed| && forall i :: 0 <= i < |parsed| ==> blocks[i] == parsed[i].(terminator := PairTerminator(parsed, i))
  }

  ghost function CallEntries(blocks: seq<Block>): set<BlockId> {
    set e: nat | e < |blocks| && IsCallTarget(blocks, e, |blocks|)
  }

  ghost predicate ArmsRewritten(paired: seq<Block>, blocks: seq<Block>) {
    |blocks| == |paired| && forall i :: 0 <= i < |paired| ==>
      && Redirected(paired[i].terminator, CallEntries(paired)).Some?
      && blocks[i] == paired[i].(terminator := Redirected(paired[i].terminator, CallEntries(paired)).value)
  }

  /** The final blocks come from the bytecode by the two rewrites. */
  ghost predicate FinalBlocks(code: seq<Opcode>, blocks: seq<Block>) {
    exists parsed, paired :: Parsed(code, parsed) && PairsRewritten(parsed, paired) && ArmsRewritten(paired, blocks)
  }

  /** Some jump has no arm left, or control falls into a procedure. */
  ghost predicate EntersProcedure(code: seq<Opcode>) {
    exists parsed, paired, i :: Parsed(code, parsed) && PairsRewritten(parsed, paired) && HasNoArm(paired, i)
  }

  ghost predicate HasNoArm(blocks: seq<Block>, i: nat) {
    i < |blocks| && OnlyIntoProcedures(blocks[i].terminator, CallEntries(blocks))
  }

  ghost function CallerGraph(blocks: seq<Block>): Graph {
    CallerView(blocks, ComputeSuccessors(blocks), NonReturning(blocks))
  }

  ghost predicate MalformedProcedure(code: seq<Opcode>) {
    exists blocks, e: nat :: FinalBlocks(code, blocks) && IsCallTarget(blocks, e, |blocks|)
      && !ProcedureShape(blocks, ComputeSuccessors(blocks), CallerGraph(blocks), e)
  }

  ghost predicate Irreducible(code: seq<Opcode>) {
    exists blocks, roots, tree :: FinalBlocks(code, blocks) && (forall r: nat :: r in roots <==> r == 0 || r in CallEntries(blocks))
      && ValidDomTree(tree, CallerGraph(blocks), roots) && !Reducible(tree, CallerGraph(blocks), roots)
  }

  lemma PairsAreRetagged(parsed: seq<Block>, predecessors: Graph, paired: seq<Block>)
    requires |paired| == |parsed| == |predecessors| && Inverse(ComputeSuccessors(parsed), predecessors) && InRange(predecessors)
    requires forall i :: 0 <= i < |parsed| ==> paired[i] == parsed[i].(terminator := Retagged(parsed, predecessors, i))
    ensures PairsRewritten(parsed, paired)
  {
    var g := ComputeSuccessors(parsed);
    forall i: nat
      ensures TrapReturnPair(parsed, i) <==> OrphanReturn(parsed, predecessors, i)
    {
      if i < |parsed| {
        NoEdgeIn(g, predecessors, i);
      }
    }
  }

  lemma NoEdgeIn(g: Graph, h: Graph, i: nat)
    requires Inverse(g, h) && InRange(h) && i < |h|
    ensures h[i] == [] <==> forall u: nat :: !Edge(g, u, i)
  {
    forall u: nat | u < |g|
      ensures Edge(g, u, i) <==> Edge(h, i, u)
    {
      InverseEdge(g, h, u, i);
    }
    if h[i] != [] {
      assert h[i][0] in h[i];
      assert Edge(h, i, h[i][0]);
    }
  }

  // ── The blocks do what the bytecode does ─────────────────────────────────

  lemma PairedStandsFor(code: seq<Opcode>, parsed: seq<Block>, i: nat)
    requires i < |parsed| && EndsLike(code, {}, parsed, i)
    ensures StandsFor(code, {}, parsed, PairTerminator(parsed, i), parsed[i].endExclusive - 1)
    ensures forall x :: x in Targets(PairTerminator(parsed, i)) <==> x in Targets(parsed[i].terminator)
    ensures PairTerminator(parsed, i).Call? || parsed[i].terminator.Call? ==> PairTerminator(parsed, i) == parsed[i].terminator
  {
    hide TrapReturnPair;
    if TrapReturnPair(parsed, i) {
      PairIs(parsed, i);
    }
    if TrapReturnPair(parsed, i + 1) {
      PairIs(parsed, i + 1);
    }
  }

  lemma PairIs(blocks: seq<Block>, i: nat)
    requires TrapReturnPair(blocks, i)
    ensures 0 < i < |blocks| && blocks[i - 1].terminator.Trap? && blocks[i].terminator.Return?
    ensures forall u: nat :: !Edge(ComputeSuccessors(blocks), u, i)
  {
  }

  /** Dropping an arm into a procedure is never jumping into one. */
  lemma RedirectedStandsFor(code: seq<Opcode>, entries: set<BlockId>, blocks: seq<Block>, t: Terminator, last: nat)
    requires last < |code| && StandsFor(code, {}, blocks, t, last) && Redirected(t, entries).Some?
    requires forall m: nat :: m < |blocks| ==> (m in entries <==> blocks[m].start in CallLocations(code))
    ensures StandsFor(code, CallLocations(code), blocks, Redirected(t, entries).value, last)
    ensures forall x :: x in Targets(Redirected(t, entries).value) ==> x in Targets(t)
    ensures Redirected(t, entries).value == Unreachable ==> t == Unreachable
  {
    hide CallLocations;
  }

  lemma StartsCarryOver(code: seq<Opcode>, entries: set<nat>, before: seq<Block>, after: seq<Block>, t: Terminator, last: nat)
    requires last < |code| && |before| == |after| && forall i :: 0 <= i < |before| ==> after[i].start == before[i].start
    requires StandsFor(code, entries, before, t, last)
    ensures StandsFor(code, entries, after, t, last)
  {
    hide Avoiding;
  }

  lemma FinalMatches(code: seq<Opcode>, parsed: seq<Block>, paired: seq<Block>, blocks: seq<Block>)
    requires Parsed(code, parsed) && PairsRewritten(parsed, paired) && ArmsRewritten(paired, blocks)
    ensures Matches(code, CallLocations(code), blocks)
  {
    var ranges, index :| Classified(code, ranges, index, parsed);
    ClassifiedRuns(code, ranges, index, parsed);
    hide RunsAs, EndsLike, Classified, PairsRewritten, ArmsRewritten, IsCallTarget, CallLocations, ComputeSuccessors, Targets;
    SameStarts(parsed, paired, blocks);
    forall m: nat | m < |blocks|
      ensures m in CallEntries(paired) <==> parsed[m].start in CallLocations(code)
    {
      CalledStarts(code, ranges, index, parsed, m);
      SameCallTargets(code, parsed, paired, m);
    }
    hide CallEntries;
    forall b: nat | b < |blocks|
      ensures FinalEnd(code, parsed, blocks, b)
    {
      ClassifiedEnds(code, ranges, index, parsed, b);
      FinalEnds(code, parsed, paired, blocks, b);
    }
    FinalEdges(code, parsed, blocks);
  }

  lemma SameStarts(parsed: seq<Block>, paired: seq<Block>, blocks: seq<Block>)
    requires PairsRewritten(parsed, paired) && ArmsRewritten(paired, blocks)
    ensures |parsed| == |paired| == |blocks|
    ensures forall i :: 0 <= i < |parsed| ==> blocks[i].start == parsed[i].start && blocks[i].endExclusive == parsed[i].endExclusive
  {
  }

  /** The block ends like the bytecode, leads nowhere else than before, and is
      entered by nothing if it is unreachable. */
  ghost predicate FinalEnd(code: seq<Opcode>, parsed: seq<Block>, blocks: seq<Block>, b: nat)
    requires b < |parsed| == |blocks|
  {
    && EndsLike(code, CallLocations(code), blocks, b)
    && (forall x :: x in Targets(blocks[b].terminator) ==> x in Targets(parsed[b].terminator))
    && (blocks[b].terminator == Unreachable ==> forall u: nat :: !Edge(ComputeSuccessors(parsed), u, b))
  }

  lemma FinalEdges(code: seq<Opcode>, parsed: seq<Block>, blocks: seq<Block>)
    requires |parsed| == |blocks| && DistinctStarts(parsed) && forall i :: 0 <= i < |parsed| ==> blocks[i].start == parsed[i].start
    requires forall b: nat :: b < |blocks| ==> FinalEnd(code, parsed, blocks, b)
    ensures Matches(code, CallLocations(code), blocks)
  {
    hide EndsLike, CallLocations, Targets;
    forall u: nat, b: nat | Edge(ComputeSuccessors(blocks), u, b) && b < |blocks|
      ensures blocks[b].terminator != Unreachable
    {
      assert FinalEnd(code, parsed, blocks, u) && FinalEnd(code, parsed, blocks, b);
      assert b in Targets(blocks[u].terminator);
      assert Edge(ComputeSuccessors(parsed), u, b);
    }
    forall b: nat | b < |blocks|
      ensures EndsLike(code, CallLocations(code), blocks, b)
    {
      assert FinalEnd(code, parsed, blocks, b);
    }
  }

  lemma SameCallTargets(code: seq<Opcode>, parsed: seq<Block>, paired: seq<Block>, m: nat)
    requires Matches(code, {}, parsed) && PairsRewritten(parsed, paired)
    ensures IsCallTarget(paired, m, |paired|) <==> IsCallTarget(parsed, m, |parsed|)
  {
    forall i: nat | i < |parsed|
      ensures paired[i].terminator.Call? || parsed[i].terminator.Call? ==> paired[i].terminator == parsed[i].terminator
    {
      assert EndsLike(code, {}, parsed, i);
      PairedStandsFor(code, parsed, i);
    }
  }

  lemma FinalEnds(code: seq<Opcode>, parsed: seq<Block>, paired: seq<Block>, blocks: seq<Block>, b: nat)
    requires PairsRewritten(parsed, paired) && ArmsRewritten(paired, blocks) && b < |parsed| == |blocks|
    requires EndsLike(code, {}, parsed, b) && parsed[b].terminator != Unreachable
    requires forall m: nat :: m < |blocks| ==> (m in CallEntries(paired) <==> parsed[m].start in CallLocations(code))
    ensures FinalEnd(code, parsed, blocks, b)
  {
    hide CallEntries, CallLocations, StandsFor, Redirected, Targets, TrapReturnPair;
    var last := parsed[b].endExclusive - 1;
    PairedStandsFor(code, parsed, b);
    RedirectedStandsFor(code, CallEntries(paired), parsed, PairTerminator(parsed, b), last);
    StartsCarryOver(code, CallLocations(code), parsed, blocks, blocks[b].terminator, last);
    if TrapReturnPair(parsed, b) {
      PairIs(parsed, b);
    }
  }

  /** The graph does what the bytecode does in which no conditional jump is taken
      into a procedure; the first block starts with the first opcode. */
  lemma FinalRuns(code: seq<Opcode>, blocks: seq<Block>)
    requires FinalBlocks(code, blocks)
    ensures Matches(code, CallLocations(code), blocks) && RunsAs(code, CallLocations(code), blocks)
    ensures |blocks| > 0 && blocks[0].start == 0
  {
    hide Matches, RunsAs;
    var parsed, paired :| Parsed(code, parsed) && PairsRewritten(parsed, paired) && ArmsRewritten(paired, blocks);
    FinalMatches(code, parsed, paired, blocks);
    MatchingRuns(code, CallLocations(code), blocks);
    FirstStart(code, parsed);
    SameStarts(parsed, paired, blocks);
  }

  lemma FirstStart(code: seq<Opcode>, parsed: seq<Block>)
    requires Parsed(code, parsed)
    ensures |parsed| > 0 && parsed[0].start == 0
  {
  }

  // ── The build ────────────────────────────────────────────────────────────

  /** Blocks after the two rewrites, with both edge lists. */
  ghost predicate Rewritten(blocks: seq<Block>, successors: Graph, predecessors: Graph, targets: seq<BlockId>) {
    && |blocks| > 0 && WellFormed(blocks)
    && successors == ComputeSuccessors(blocks) && Inverse(successors, predecessors)
    && (forall e: nat :: e in targets <==> IsCallTarget(blocks, e, |blocks|))
    && (forall e :: e in targets ==> e < |blocks|)
    && (forall i, j :: 0 <= i < j < |targets| ==> targets[i] < targets[j])
    && (forall b: nat, u: nat :: b < |blocks| && blocks[b].terminator.Unreachable? ==> !Edge(successors, u, b))
    && !blocks[0].terminator.Unreachable?
  }

  lemma RedirectedKeeps(before: seq<Block>, entries: set<BlockId>, after: seq<Block>)
    requires |after| == |before|
    requires forall i :: 0 <= i < |before| ==> Redirected(before[i].terminator, entries).Some?
    requires forall i :: 0 <= i < |before| ==> after[i] == before[i].(terminator := Redirected(before[i].terminator, entries).value)
    ensures forall i :: 0 <= i < |before| ==> after[i].terminator.Unreachable? == before[i].terminator.Unreachable?
    ensures forall i :: 0 <= i < |before| ==> (after[i].terminator.Call? || before[i].terminator.Call? ==> after[i].terminator == before[i].terminator)
    ensures forall e: nat :: IsCallTarget(after, e, |after|) <==> IsCallTarget(before, e, |before|)
    ensures WellFormed(before) ==> WellFormed(after)
    ensures forall u: nat, b: nat :: Edge(ComputeSuccessors(after), u, b) ==> Edge(ComputeSuccessors(before), u, b)
  {
    forall i | 0 <= i < |before|
      ensures forall t :: t in Targets(after[i].terminator) ==> t in Targets(before[i].terminator)
    {
    }
    forall e: nat
      ensures IsCallTarget(after, e, |after|) <==> IsCallTarget(before, e, |before|)
    {
      if IsCallTarget(after, e, |after|) {
        var c :| 0 <= c < |after| && after[c].terminator.Call? && after[c].terminator.callee == e;
        assert before[c].terminator.Call? && before[c].terminator.callee == e;
      }
      if IsCallTarget(before, e, |before|) {
        var c :| 0 <= c < |before| && before[c].terminator.Call? && before[c].terminator.callee == e;
        assert after[c].terminator.Call? && after[c].terminator.callee == e;
      }
    }
    forall u: nat, b: nat | Edge(ComputeSuccessors(after), u, b)
      ensures Edge(ComputeSuccessors(before), u, b)
    {
      assert ComputeSuccessors(after)[u] == Targets(after[u].terminator);
      assert ComputeSuccessors(before)[u] == Targets(before[u].terminator);
    }
  }

  lemma RetaggedKeeps(before: seq<Block>, predecessors: Graph, after: seq<Block>)
    requires |after| == |before| == |predecessors| && Inverse(ComputeSuccessors(before), predecessors) && WellFormed(before)
    requires forall i :: 0 <= i < |before| ==> after[i] == before[i].(terminator := Retagged(before, predecessors, i))
    requires forall i :: 0 <= i < |before| ==> !before[i].terminator.Unreachable?
    ensures forall b: nat, u: nat :: b < |after| && after[b].terminator.Unreachable? ==> !Edge(ComputeSuccessors(after), u, b)
    ensures |after| > 0 ==> !after[0].terminator.Unreachable?
  {
    RetaggedSuccessors(before, predecessors, after);
    var g := ComputeSuccessors(before);
    forall b: nat, u: nat | b < |after| && after[b].terminator.Unreachable?
      ensures !Edge(g, u, b)
    {
      assert OrphanReturn(before, predecessors, b);
      if u < |g| {
        InverseEdge(g, predecessors, u, b);
      }
    }
  }

  lemma ClassifiedReachable(code: seq<Opcode>, ranges: seq<(nat, nat)>, index: map<nat, BlockId>, blocks: seq<Block>)
    requires Classified(code, ranges, index, blocks)
    ensures forall i :: 0 <= i < |blocks| ==> !blocks[i].terminator.Unreachable?
  {
    forall i | 0 <= i < |blocks|
      ensures !blocks[i].terminator.Unreachable?
    {
      assert FlowTerminator(code, index, ranges[i].1 - 1) == Some(blocks[i].terminator);
    }
  }

  /** Splitting and classification. */
  method ParseBlocks(code: seq<Opcode>) returns (r: Recovered<seq<Block>>)
    ensures r.Ok? <==> StaysInside(code)
    ensures r.Ok? ==> Parsed(code, r.value) && RunsAs(code, {}, r.value)
    ensures r.Ok? ==> |r.value| > 0 && WellFormed(r.value)
    ensures r.Ok? ==> forall i :: 0 <= i < |r.value| ==> !r.value[i].terminator.Unreachable?
  {
    hide Partition, Classified, IndexOf, StaysInside, FlowTerminator, TargetsInRange, WellFormed, RunsAs, Matches;
    var split := SplitBlocks(code);
    if split.Err? {
      StaysInTargets(code);
      return Err(split.error);
    }
    var index := IndexRanges(code, split.value);
    AcceptedIff(code, split.value, index);
    var classified := Classify(code, split.value, index);
    if classified.Err? {
      return Err(classified.error);
    }
    ClassifiedWellFormed(code, split.value, index, classified.value);
    ClassifiedReachable(code, split.value, index, classified.value);
    assert Parsed(code, classified.value);
    ClassifiedRuns(code, split.value, index, classified.value);
    return Ok(classified.value);
  }

  lemma StaysInTargets(code: seq<Opcode>)
    ensures StaysInside(code) ==> code != [] && TargetsInRange(code, |code|)
  {
    if StaysInside(code) {
      forall j | 0 <= j < |code| && FlowTarget(code[j]).Some?
        ensures FlowTarget(code[j]).value < |code|
      {
        assert Step(code, j, FlowTarget(code[j]).value);
      }
    }
  }

  lemma RewrittenIntro(blocks1: seq<Block>, entries: set<BlockId>, targets: seq<BlockId>, blocks: seq<Block>, successors: Graph, predecessors: Graph)
    requires |blocks1| > 0 && WellFormed(blocks1) && |blocks| == |blocks1|
    requires forall i :: 0 <= i < |blocks1| ==> Redirected(blocks1[i].terminator, entries).Some?
    requires forall i :: 0 <= i < |blocks| ==> blocks[i] == blocks1[i].(terminator := Redirected(blocks1[i].terminator, entries).value)
    requires successors == ComputeSuccessors(blocks) && Inverse(successors, predecessors)
    requires forall e: nat :: e in targets <==> IsCallTarget(blocks1, e, |blocks1|)
    requires forall e :: e in targets ==> e < |blocks1|
    requires forall i, j :: 0 <= i < j < |targets| ==> targets[i] < targets[j]
    requires forall b: nat, u: nat :: b < |blocks1| && blocks1[b].terminator.Unreachable? ==> !Edge(ComputeSuccessors(blocks1), u, b)
    requires !blocks1[0].terminator.Unreachable?
    ensures Rewritten(blocks, successors, predecessors, targets)
  {
    RedirectedKeeps(blocks1, entries, blocks);
    hide Inverse, Redirected, ComputeSuccessors, Edge, IsCallTarget, WellFormed;
  }

  /** Parsing and both rewrites. */
  method BuildBlocks(code: seq<Opcode>) returns (r: Recovered<(seq<Block>, Graph, Graph, seq<BlockId>)>)
    ensures r.Ok? ==> Rewritten(r.value.0, r.value.1, r.value.2, r.value.3) && FinalBlocks(code, r.value.0)
    ensures r.Err? ==> !StaysInside(code) || EntersProcedure(code)
  {
    hide StaysInside, Inverse, WellFormed, InRange, Rewritten, Retagged, Redirected, IsCallTarget, ComputeSuccessors, Edge, Parsed;
    hide PairsRewritten, ArmsRewritten, CallEntries, OnlyIntoProcedures, RunsAs;
    var parsed := ParseBlocks(code);
    if parsed.Err? {
      return Err(parsed.error);
    }
    var blocks0 := parsed.value;
    var successors := ComputeSuccessors(blocks0);
    SuccessorsInRange(blocks0);
    var predecessors := InvertEdges(successors);
    SuccessorsSize(blocks0, predecessors);

    var blocks1 := RewriteTrapReturnPattern(blocks0, predecessors);
    RetaggedSuccessors(blocks0, predecessors, blocks1);
    RetaggedKeeps(blocks0, predecessors, blocks1);
    PairsAreRetagged(blocks0, predecessors, blocks1);
    var targets := UniqueCallTargets(blocks1);
    var entries: set<BlockId> := set e | e in targets;
    EntriesAreTargets(blocks1, targets, entries);
    var rewritten := RewriteDeadJumpIf(blocks1, successors, predecessors, entries);
    if rewritten.Err? {
      ghost var i :| 0 <= i < |blocks1| && OnlyIntoProcedures(blocks1[i].terminator, entries);
      assert HasNoArm(blocks1, i);
      return Err(rewritten.error);
    }
    assert ArmsRewritten(blocks1, rewritten.value.0) by {
      ArmsIntro(blocks1, rewritten.value.0, entries);
    }
    RewrittenIntro(blocks1, entries, targets, rewritten.value.0, rewritten.value.1, rewritten.value.2);
    return Ok((rewritten.value.0, rewritten.value.1, rewritten.value.2, targets));
  }

  lemma EntriesAreTargets(blocks: seq<Block>, targets: seq<BlockId>, entries: set<BlockId>)
    requires forall e: nat :: e in targets <==> IsCallTarget(blocks, e, |blocks|)
    requires forall e :: e in targets ==> e < |blocks|
    requires forall e :: e in entries <==> e in targets
    ensures entries == CallEntries(blocks)
  {
  }

  lemma ArmsIntro(paired: seq<Block>, blocks: seq<Block>, entries: set<BlockId>)
    requires |blocks| == |paired| && entries == CallEntries(paired)
    requires forall i :: 0 <= i < |paired| ==> Redirected(paired[i].terminator, entries).Some?
    requires forall i :: 0 <= i < |paired| ==> blocks[i] == paired[i].(terminator := Redirected(paired[i].terminator, entries).value)
    ensures ArmsRewritten(paired, blocks)
  {
  }

  lemma SuccessorsSize(blocks: seq<Block>, predecessors: Graph)
    requires Inverse(ComputeSuccessors(blocks), predecessors)
    ensures |predecessors| == |blocks|
  {
  }

  /** The call targets whose entry block never returns. */
  method ComputeNonReturningCalls(blocks: seq<Block>, callTargets: seq<BlockId>) returns (entries: set<BlockId>)
    requires forall e: nat :: e in callTargets <==> IsCallTarget(blocks, e, |blocks|)
    requires forall e :: e in callTargets ==> e < |blocks|
    ensures entries == NonReturning(blocks)
  {
    entries := set e | e in callTargets && blocks[e].terminator.TrapReturn?;
  }

  /** The caller's view and the procedures found in it. */
  ghost predicate Analysed(c: Cfg) {
    && ValidViews(c) && InRange(c.callerSucc) && PredsOf(c.callerSucc, c.callerPred) && InRange(c.callerPred)
    && ValidProcedures(c)
    && (forall b: nat :: b < |c.blocks| && c.blocks[b].terminator.Unreachable? ==> !RootReach(c.callerSucc, Roots(c), b))
    && (forall r :: r in Roots(c) ==> r < |c.callerSucc|)
  }

  lemma ProceduresCovered(blocks: seq<Block>, targets: seq<BlockId>, procedures: seq<Procedure>)
    requires forall e: nat :: e in targets <==> IsCallTarget(blocks, e, |blocks|)
    requires |procedures| == |targets| && forall i :: 0 <= i < |targets| ==> procedures[i].entry == targets[i]
    ensures forall b :: 0 <= b < |blocks| && blocks[b].terminator.Call? ==>
              exists i :: 0 <= i < |procedures| && procedures[i].entry == blocks[b].terminator.callee
  {
    forall b | 0 <= b < |blocks| && blocks[b].terminator.Call?
      ensures exists i :: 0 <= i < |procedures| && procedures[i].entry == blocks[b].terminator.callee
    {
      var e := blocks[b].terminator.callee;
      assert IsCallTarget(blocks, e, |blocks|);
      var i :| 0 <= i < |targets| && targets[i] == e;
      assert procedures[i].entry == e;
    }
  }

  lemma CallerEdge(blocks: seq<Block>, de: set<BlockId>, u: nat, b: nat)
    requires Edge(CallerView(blocks, ComputeSuccessors(blocks), de), u, b)
    ensures Edge(ComputeSuccessors(blocks), u, b)
  {
    assert ComputeSuccessors(blocks)[u] == Targets(blocks[u].terminator);
  }

  lemma UnreachableUnreached(c: Cfg, targets: seq<BlockId>)
    requires Rewritten(c.blocks, c.successors, c.predecessors, targets)
    requires c.callerSucc == CallerView(c.blocks, c.successors, NonReturning(c.blocks))
    requires |c.procedures| == |targets| && forall i :: 0 <= i < |targets| ==> c.procedures[i].entry == targets[i]
    ensures forall b: nat :: b < |c.blocks| && c.blocks[b].terminator.Unreachable? ==> !RootReach(c.callerSucc, Roots(c), b)
  {
    forall b: nat | b < |c.blocks| && c.blocks[b].terminator.Unreachable?
      ensures !RootReach(c.callerSucc, Roots(c), b)
    {
      forall u: nat
        ensures !Edge(c.callerSucc, u, b)
      {
        if Edge(c.callerSucc, u, b) {
          CallerEdge(c.blocks, NonReturning(c.blocks), u, b);
        }
      }
      if b in Roots(c) {
        var i :| 0 <= i < |Roots(c)| && Roots(c)[i] == b;
        assert targets[i - 1] in targets;
        assert IsCallTarget(c.blocks, b, |c.blocks|);
        var k :| 0 <= k < |c.blocks| && c.blocks[k].terminator.Call? && c.blocks[k].terminator.callee == b;
        assert c.successors[k] == Targets(c.blocks[k].terminator);
        assert Edge(c.successors, k, b);
      }
      OrphanUnreached(c.callerSucc, Roots(c), b);
    }
  }

  method AnalyseCalls(blocks: seq<Block>, successors: Graph, predecessors: Graph, targets: seq<BlockId>)
    returns (r: Recovered<Cfg>, divergentEntries: set<BlockId>)
    requires Rewritten(blocks, successors, predecessors, targets)
    ensures r.Err? ==> exists e: nat :: IsCallTarget(blocks, e, |blocks|) && !ProcedureShape(blocks, successors, CallerGraph(blocks), e)
    ensures r.Ok? ==> forall e: nat :: e in Roots(r.value) <==> e == 0 || e in CallEntries(blocks)
    ensures r.Ok? ==> Analysed(r.value) && r.value.blocks == blocks && divergentEntries == NonReturning(blocks)
  {
    divergentEntries := ComputeNonReturningCalls(blocks, targets);
    var callerSucc := CallerView(blocks, successors, divergentEntries);
    SuccessorsInRange(blocks);
    var callerPred := InvertEdges(callerSucc);
    InversePreds(callerSucc, callerPred);
    var procedures := IdentifyProcedures(blocks, successors, callerSucc, targets);
    if procedures.Err? {
      return Err(procedures.error), divergentEntries;
    }
    var none := DomTree([], []);
    var c := Cfg(blocks, successors, predecessors, callerSucc, callerPred, none, none, [], procedures.value, {});
    ProceduresCovered(blocks, targets, procedures.value);
    UnreachableUnreached(c, targets);
    assert forall i :: 0 <= i < |targets| ==> targets[i] in targets;
    RootsInRange(c);
    RootsAreEntries(c, targets);
    return Ok(c), divergentEntries;
  }

  lemma RootsAreEntries(c: Cfg, targets: seq<BlockId>)
    requires |c.procedures| == |targets| && forall i :: 0 <= i < |targets| ==> c.procedures[i].entry == targets[i]
    requires forall e: nat :: e in targets <==> IsCallTarget(c.blocks, e, |c.blocks|)
    requires forall e :: e in targets ==> e < |c.blocks|
    ensures forall e: nat :: e in Roots(c) <==> e == 0 || e in CallEntries(c.blocks)
  {
    assert Entries(c.procedures) == targets;
  }

  lemma RootsInRange(c: Cfg)
    requires |c.callerSucc| == |c.blocks| > 0
    requires forall i :: 0 <= i < |c.procedures| ==> c.procedures[i].entry < |c.blocks|
    ensures forall r :: r in Roots(c) ==> r < |c.callerSucc|
  {
  }

  /** The graph of a Brillig function, or an error. */
  method Build(code: seq<Opcode>) returns (r: Recovered<Cfg>)
    ensures r.Ok? ==> ValidCfg(r.value) && FinalBlocks(code, r.value.blocks)
    ensures r.Ok? ==> RunsAs(code, CallLocations(code), r.value.blocks)
    ensures r.Err? ==> !StaysInside(code) || EntersProcedure(code) || MalformedProcedure(code) || Irreducible(code)
  {
    hide FinalBlocks, CallEntries, CallerGraph, EntersProcedure, StaysInside, ValidViews, ValidProcedures, ValidDomTree, ValidPostDom, AreLoops, Reducible, PredsOf, InRange, Diverges, Inverse, RunsAs, Matches;
    var built := BuildBlocks(code);
    if built.Err? {
      return Err(built.error);
    }
    var (blocks, successors, predecessors, targets) := built.value;
    var analysed, divergentEntries := AnalyseCalls(blocks, successors, predecessors, targets);
    if analysed.Err? {
      return Err(analysed.error);
    }
    var c := analysed.value;
    ghost var de := NonReturning(blocks);
    var roots := Roots(c);
    AnalysedSizes(c);
    var dominators := BuildWithSuperEntry(c.callerSucc, c.callerPred, roots);
    var divergent := ComputeAlwaysDivergent(blocks, c.callerSucc, c.callerPred, divergentEntries);
    var live := LiveView(c.callerSucc, divergent);
    LiveInRange(c.callerSucc, divergent);
    var livePred := InvertEdges(live);
    InversePreds(live, livePred);
    var postDominators;
    ghost var exits;
    postDominators, exits := BuildPost(blocks, live, livePred);
    ValidFromReversed(postDominators, live, livePred, blocks, exits);
    var loops := DetectNaturalLoops(c.callerPred, dominators, |blocks|, c.callerSucc, roots);
    var reducible := CheckReducible(c.callerSucc, dominators, roots);
    if !reducible {
      ViewIsCaller(c);
      assert Irreducible(code);
      return Err(UnsupportedBrillig("Brillig CFG is irreducible"));
    }
    FinalRuns(code, blocks);
    var whole := c.(dominators := dominators, postDominators := postDominators, loops := loops, divergentBlocks := divergent);
    SameViews(c, whole);
    return Ok(whole);
  }

  lemma ViewIsCaller(c: Cfg)
    requires Analysed(c)
    ensures c.callerSucc == CallerGraph(c.blocks)
  {
  }

  lemma AnalysedSizes(c: Cfg)
    requires Analysed(c)
    ensures |c.blocks| == |c.callerSucc|
    ensures Inverse(c.callerSucc, c.callerPred) && PredsOf(c.callerSucc, c.callerPred) && InRange(c.callerPred) && InRange(c.callerSucc)
    ensures forall b: nat :: Leaf(c.blocks, NonReturning(c.blocks), b) ==> c.callerSucc[b] == []
  {
    LeavesHaveNoSuccessors(c.blocks, NonReturning(c.blocks));
  }

  lemma SameViews(c: Cfg, d: Cfg)
    requires Analysed(c)
    requires d == c.(dominators := d.dominators, postDominators := d.postDominators, loops := d.loops, divergentBlocks := d.divergentBlocks)
    ensures ValidViews(d) && ValidProcedures(d) && Roots(d) == Roots(c)
    ensures forall b: nat :: b < |d.blocks| && d.blocks[b].terminator.Unreachable? ==> !RootReach(d.callerSucc, Roots(d), b)
  {
  }
}
