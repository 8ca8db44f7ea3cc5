/** `structure_function`: every body of a function as a tree, and what running
    such a tree says about running the graph. */
module Structurer {
  import opened Graphs
  import opened CfgTypes
  import opened Rooted
  import opened Rewrites
  import opened CfgBuild
  import opened StructureTree
  import opened EscapeFlags
  import opened Simulation
  import opened LoopShapes
  import opened RegionFacts
  import opened RegionWalk
  import opened Loops
  import opened Walker

  // ── What a simulated body promises ───────────────────────────────────────

  /** Tree and graph agree on the outcomes `w`: the tree finishes exactly when
      the graph stops, after the same events and with the same outcomes left;
      it starves only where the graph waits for the same outcome; if the graph
      traps, the tree has failed; if the tree fails, the graph traps on every
      long enough supply of further outcomes, after at least the same events. */
  ghost predicate RunsAgree(g: Program, nodes: seq<StructureNode>, entry: BlockId, w: seq<bool>) {
    var r := g.RunTree(nodes, w, {});
    && (forall trace, rest :: r == Run(trace, Finished(rest, {})) <==> WalksTo(g, entry, w, trace, Stopped(rest)))
    && (r.end.Finished? ==> r.end.flags == {})
    && (r.end.Starved? ==> WalksTo(g, entry, w, r.trace, Unfed))
    && (forall trace :: WalksTo(g, entry, w, trace, Trapped) ==> r.end.Failed? && r.trace <= trace)
    && (r.end.Failed? ==> FailsLater(g, entry, w, r.trace))
    && !r.end.Spinning? && !r.end.Unemitted?
  }

  /** Runs of one length or another that have ended are the same run. */
  lemma SameRun(g: Program, b: BlockId, w: seq<bool>, n: nat, m: nat)
    requires !g.Walk(n, b, w).end.Running? && !g.Walk(m, b, w).end.Running?
    ensures g.Walk(n, b, w) == g.Walk(m, b, w)
  {
    if n <= m {
      WalkEnded(g.blocks, g.diverging, n, m, b, w);
    } else {
      WalkEnded(g.blocks, g.diverging, m, n, b, w);
    }
  }

  lemma WalksSame(g: Program, b: BlockId, w: seq<bool>, t1: seq<Event>, e1: GraphEnd, t2: seq<Event>, e2: GraphEnd)
    requires WalksTo(g, b, w, t1, e1) && WalksTo(g, b, w, t2, e2) && !e1.Running? && !e2.Running?
    ensures t1 == t2 && e1 == e2
  {
    var n: nat :| g.Walk(n, b, w) == GraphRun(t1, e1);
    var m: nat :| g.Walk(m, b, w) == GraphRun(t2, e2);
    SameRun(g, b, w, n, m);
  }

  /** A graph that stops or traps on `w` does so whatever follows `w`; if it also
      fails later, it has trapped. */
  lemma FailsLaterTraps(g: Program, b: BlockId, w: seq<bool>, failed: seq<Event>, trace: seq<Event>, end: GraphEnd)
    requires FailsLater(g, b, w, failed) && WalksTo(g, b, w, trace, end) && (end.Stopped? || end.Trapped?)
    ensures end.Trapped? && failed <= trace
  {
    var k: nat :| FailsWithin(g, b, w, failed, k);
    var more: seq<bool> := seq(k, i => true);
    assert FailsOn(g, b, w + more, failed);
    var m: nat :| g.Walk(m, b, w + more).end.Trapped? && failed <= g.Walk(m, b, w + more).trace;
    var n: nat :| g.Walk(n, b, w) == GraphRun(trace, end);
    WalkFeed(g.blocks, g.diverging, n, b, w, more);
    SameRun(g, b, w + more, n, m);
  }

  lemma AgreesOn(g: Program, nodes: seq<StructureNode>, entry: BlockId, exit: Exit, w: seq<bool>)
    requires Simulates(g, nodes, entry, exit) && !exit.At?
    ensures RunsAgree(g, nodes, entry, w)
  {
    assert SimulatesOn(g, nodes, entry, exit, w, {});
    var r := g.RunTree(nodes, w, {});
    forall trace, end | WalksTo(g, entry, w, trace, end) && (end.Stopped? || end.Trapped?)
      ensures end.Stopped? ==> r == Run(trace, Finished(end.rest, {}))
      ensures end.Trapped? ==> r.end.Failed? && r.trace <= trace
    {
      match r.end
      case Finished(rest, _) => WalksSame(g, entry, w, r.trace, Stopped(rest), trace, end);
      case Starved => WalksSame(g, entry, w, r.trace, Unfed, trace, end);
      case Failed => FailsLaterTraps(g, entry, w, r.trace, trace, end);
    }
  }

  // ── The function ─────────────────────────────────────────────────────────

  datatype StructuredProcedure = StructuredProcedure(entry: BlockId, body: seq<StructureNode>, escapeFlagCount: nat)

  datatype StructuredFunction = StructuredFunction(
    main: seq<StructureNode>,
    mainEscapeFlagCount: nat,
    procedures: seq<StructuredProcedure>)

  /** The loops of every body take its slots in order, and every break names the
      innermost loop around it. */
  ghost predicate FunctionFlagged(f: StructuredFunction) {
    && Flagged(f.main, None, 0, f.mainEscapeFlagCount)
    && forall i :: 0 <= i < |f.procedures| ==> Flagged(f.procedures[i].body, None, 0, f.procedures[i].escapeFlagCount)
  }

  /** For every sequence of branch outcomes the body does what the graph does. */
  ghost predicate BodyAgrees(c: Cfg, entry: BlockId, nodes: seq<StructureNode>) {
    forall w: seq<bool> :: RunsAgree(ProgramOf(c), nodes, entry, w)
  }

  ghost predicate FunctionAgrees(c: Cfg, f: StructuredFunction) {
    && BodyAgrees(c, 0, f.main)
    && |f.procedures| == |c.procedures|
    && forall i :: 0 <= i < |c.procedures| ==>
         f.procedures[i].entry == c.procedures[i].entry && BodyAgrees(c, c.procedures[i].entry, f.procedures[i].body)
  }

  lemma EntryCovered(c: Cfg, entry: BlockId)
    requires Structurable(c) && entry in Roots(c)
    ensures Covered(c, entry, None, None, None)
  {
    assert entry < |c.callerSucc|;
    assert RootPath(c.callerSucc, Roots(c), [entry], entry);
  }

  /** A body is entered in no loop but its own. */
  lemma EntryReady(c: Cfg, entry: BlockId, fuel: nat)
    requires Structurable(c) && entry in Roots(c) && fuel >= 3 * |c.blocks| + 6
    ensures Ready(c, entry, None, None, None, fuel)
  {
    EntryCovered(c, entry);
    assert entry < |c.callerSucc|;
    assert RootPath(c.callerSucc, Roots(c), [entry], entry);
    forall x: nat | BodyOf(c, x, entry)
      ensures x == entry
    {
      HeaderDominatesBody(c.callerSucc, Roots(c), x, entry);
      assert x in [entry];
    }
  }

  lemma BodyFaithful(c: Cfg, entry: BlockId, r: Outcome<seq<StructureNode>>)
    requires Structurable(c) && entry in Roots(c)
    requires Covered(c, entry, None, None, None) ==> Faithful(c, entry, None, None, r)
    ensures !r.Panicked? && (r.Done? ==> BodyAgrees(c, entry, r.value))
  {
    EntryCovered(c, entry);
    if r.Done? {
      forall w: seq<bool>
        ensures RunsAgree(ProgramOf(c), r.value, entry, w)
      {
        AgreesOn(ProgramOf(c), r.value, entry, ExitOf(c, entry, None, None), w);
      }
    }
  }

  /** Structures every procedure, then the main body. If every loop is left from
      its header only, the function is accepted, given fuel for the number of its
      blocks, and its trees do what the graph does. */
  method StructureFunction(c: Cfg, fuel: nat) returns (r: Outcome<StructuredFunction>)
    requires ValidCfg(c)
    ensures r.Done? ==> FunctionFlagged(r.value)
    ensures Structurable(c) ==> !r.Panicked? && (r.Done? ==> FunctionAgrees(c, r.value))
    ensures Structurable(c) && fuel >= 3 * |c.blocks| + 6 ==> r.Done?
  {
    hide Flagged, ValidCfg, Structurable, BodyAgrees, Covered, Faithful, Ready;
    var state := new State(c);
    EntriesInRange(c);
    ghost var good := Structurable(c);
    ghost var ready := good && fuel >= 3 * |c.blocks| + 6;
    var procedures: seq<StructuredProcedure> := [];
    for i := 0 to |c.procedures|
      invariant state.Valid() && state.cfg == c && fresh(state)
      invariant |procedures| == i
      invariant forall j :: 0 <= j < i ==> Flagged(procedures[j].body, None, 0, procedures[j].escapeFlagCount)
      invariant forall j :: 0 <= j < i ==> procedures[j].entry == c.procedures[j].entry
      invariant forall j :: 0 <= j < i && good ==> BodyAgrees(c, c.procedures[j].entry, procedures[j].body)
    {
      var entry := c.procedures[i].entry;
      if ready {
        EntryReady(c, entry, fuel);
      }
      var body, flags := state.StructureOneBody(entry, fuel);
      if good {
        BodyFaithful(c, entry, body);
      }
      if !body.Done? {
        return Fail(body);
      }
      procedures := procedures + [StructuredProcedure(entry, body.value, flags)];
    }
    if ready {
      EntryReady(c, 0, fuel);
    }
    var main, flags := state.StructureOneBody(0, fuel);
    if good {
      BodyFaithful(c, 0, main);
    }
    if !main.Done? {
      return Fail(main);
    }
    return Done(StructuredFunction(main.value, flags, procedures));
  }

  lemma EntriesInRange(c: Cfg)
    requires ValidCfg(c)
    ensures 0 < |c.blocks| && 0 in Roots(c)
    ensures forall i :: 0 <= i < |c.procedures| ==> c.procedures[i].entry < |c.blocks| && c.procedures[i].entry in Roots(c)
  {
    assert Roots(c)[0] == 0;
    forall i | 0 <= i < |c.procedures|
      ensures c.procedures[i].entry in Roots(c)
    {
      assert Roots(c)[i + 1] == c.procedures[i].entry;
    }
  }
}
