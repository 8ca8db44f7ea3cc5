/** The two rewrites of the classified blocks and the procedures they leave. */
module Rewrites {
  import opened Graphs
  import opened CfgTypes
  import opened Views

  // ── A trap followed by an orphan return ──────────────────────────────────

  predicate OrphanReturn(blocks: seq<Block>, predecessors: Graph, i: nat)
    requires |predecessors| == |blocks|
  {
    && 0 < i < |blocks| && blocks[i - 1].terminator.Trap?
    && blocks[i].terminator.Return? && blocks[i].endExclusive - blocks[i].start == 1
    && predecessors[i] == []
  }

  /** The terminator of block `i` after the rewrite. */
  function Retagged(blocks: seq<Block>, predecessors: Graph, i: nat): Terminator
    requires i < |blocks| == |predecessors|
  {
    if blocks[i].terminator.Trap? && OrphanReturn(blocks, predecessors, i + 1) then TrapReturn
    else if OrphanReturn(blocks, predecessors, i) then Unreachable
    else blocks[i].terminator
  }

  method RewriteTrapReturnPattern(blocks: seq<Block>, predecessors: Graph) returns (r: seq<Block>)
    requires |blocks| == |predecessors|
    ensures |r| == |blocks|
    ensures forall i :: 0 <= i < |r| ==> r[i] == blocks[i].(terminator := Retagged(blocks, predecessors, i))
  {
    r := blocks;
    for i := 0 to |blocks|
      invariant |r| == |blocks|
      invariant forall j :: 0 <= j < i ==> r[j] == blocks[j].(terminator := Retagged(blocks, predecessors, j))
      invariant i < |blocks| ==> r[i] == blocks[i].(terminator :=
          if OrphanReturn(blocks, predecessors, i) then Unreachable else blocks[i].terminator)
      invariant forall j :: i < j < |blocks| ==> r[j] == blocks[j]
    {
      if !r[i].terminator.Trap? {
        continue;
      }
      if i + 1 < |r| {
        var next := r[i + 1];
        if next.terminator.Return? && next.endExclusive - next.start == 1 && predecessors[i + 1] == [] {
          r := r[i := r[i].(terminator := TrapReturn)];
          r := r[i + 1 := next.(terminator := Unreachable)];
        }
      }
    }
  }

  lemma RetaggedSuccessors(blocks: seq<Block>, predecessors: Graph, r: seq<Block>)
    requires |r| == |blocks| == |predecessors|
    requires forall i :: 0 <= i < |r| ==> r[i] == blocks[i].(terminator := Retagged(blocks, predecessors, i))
    ensures ComputeSuccessors(r) == ComputeSuccessors(blocks)
    ensures WellFormed(blocks) ==> WellFormed(r)
  {
    forall i | 0 <= i < |r|
      ensures Targets(r[i].terminator) == Targets(blocks[i].terminator)
    {
    }
  }

  // ── Conditional jumps into procedures ────────────────────────────────────

  /** The terminator after dropping an arm that enters a procedure; `None` when
      no live arm remains or control falls into a procedure. */
  function Redirected(t: Terminator, entries: set<BlockId>): Option<Terminator> {
    match t
    case JumpIf(_, thenBlock, elseBlock) =>
      if thenBlock in entries && elseBlock in entries then None
      else if thenBlock in entries then Some(Jump(elseBlock))
      else if elseBlock in entries then Some(Jump(thenBlock))
      else Some(t)
    case Jump(target) => if target in entries then None else Some(t)
    case Fallthrough(target) => if target in entries then None else Some(t)
    case _ => Some(t)
  }

  /** Wherever the block jumps to, it enters a procedure. */
  predicate OnlyIntoProcedures(t: Terminator, entries: set<BlockId>) {
    !t.Call? && Targets(t) != [] && forall x :: x in Targets(t) ==> x in entries
  }

  lemma RefusedIff(t: Terminator, entries: set<BlockId>)
    ensures Redirected(t, entries).None? <==> OnlyIntoProcedures(t, entries)
  {
    match t
    case JumpIf(_, x, y) => assert x in Targets(t) && y in Targets(t);
    case Jump(x) => assert x in Targets(t);
    case Fallthrough(x) => assert x in Targets(t);
    case _ =>
  }

  lemma {:induction false} LiveCount(s: seq<BlockId>, dead: set<BlockId>, x: BlockId)
    ensures multiset(Live(s, dead))[x] == if x in dead then 0 else multiset(s)[x]
  {
    if s != [] {
      LiveCount(s[1..], dead, x);
      assert s == [s[0]] + s[1..];
    }
  }

  /** Removing the edge from `i` to `dead` on both sides. */
  lemma DropEdge(g: Graph, h: Graph, i: nat, dead: nat)
    requires Inverse(g, h) && i < |g| && dead < |h|
    ensures Inverse(g[i := Live(g[i], {dead})], h[dead := Live(h[dead], {i})])
  {
    var g' := g[i := Live(g[i], {dead})];
    var h' := h[dead := Live(h[dead], {i})];
    forall u: nat, v: nat | u < |g| && v < |g|
      ensures multiset(g'[u])[v] == multiset(h'[v])[u]
    {
      LiveCount(g[i], {dead}, v);
      LiveCount(h[dead], {i}, u);
      assert multiset(g[u])[v] == multiset(h[v])[u];
    }
  }

  method EveryJumpHasArm(blocks: seq<Block>, entries: set<BlockId>) returns (ok: bool)
    ensures ok <==> forall i :: 0 <= i < |blocks| ==> Redirected(blocks[i].terminator, entries).Some?
  {
    for i := 0 to |blocks|
      invariant forall j :: 0 <= j < i ==> Redirected(blocks[j].terminator, entries).Some?
    {
      if Redirected(blocks[i].terminator, entries).None? {
        return false;
      }
    }
    return true;
  }

  method RewriteDeadJumpIf(blocks: seq<Block>, successors: Graph, predecessors: Graph, entries: set<BlockId>)
    returns (r: Recovered<(seq<Block>, Graph, Graph)>)
    requires WellFormed(blocks) && successors == ComputeSuccessors(blocks)
    requires Inverse(successors, predecessors)
    ensures r.Err? <==> exists i :: 0 <= i < |blocks| && OnlyIntoProcedures(blocks[i].terminator, entries)
    ensures r.Ok? <==> forall i :: 0 <= i < |blocks| ==> Redirected(blocks[i].terminator, entries).Some?
    ensures r.Ok? ==>
      && |r.value.0| == |blocks|
      && (forall i :: 0 <= i < |blocks| ==> r.value.0[i] == blocks[i].(terminator := Redirected(blocks[i].terminator, entries).value))
      && r.value.1 == ComputeSuccessors(r.value.0)
      && Inverse(r.value.1, r.value.2)
  {
    var ok := EveryJumpHasArm(blocks, entries);
    forall i | 0 <= i < |blocks|
      ensures Redirected(blocks[i].terminator, entries).None? <==> OnlyIntoProcedures(blocks[i].terminator, entries)
    {
      RefusedIff(blocks[i].terminator, entries);
    }
    if !ok {
      return Err(UnsupportedBrillig("procedures must be entered only via Call"));
    }
    var blocks', succ, pred := blocks, successors, predecessors;
    for i := 0 to |blocks|
      invariant |blocks'| == |blocks| == |succ|
      invariant forall j :: 0 <= j < i ==> blocks'[j] == blocks[j].(terminator := Redirected(blocks[j].terminator, entries).value)
      invariant forall j :: i <= j < |blocks| ==> blocks'[j] == blocks[j]
      invariant forall j :: 0 <= j < |blocks| ==> succ[j] == Targets(blocks'[j].terminator)
      invariant Inverse(succ, pred)
    {
      hide Inverse, Redirected, WellFormed, Live, Targets, OnlyIntoProcedures;
      var t := blocks[i].terminator;
      RedirectedArm(t, entries);
      if t.JumpIf? && (t.thenBlock in entries || t.elseBlock in entries) {
        var live := if t.thenBlock in entries then t.elseBlock else t.thenBlock;
        var dead := if t.thenBlock in entries then t.thenBlock else t.elseBlock;
        DropDead(blocks, succ, pred, i, dead);
        JumpTargets(live);
        blocks' := blocks'[i := blocks'[i].(terminator := Jump(live))];
        succ := succ[i := Live(succ[i], {dead})];
        pred := pred[dead := Live(pred[dead], {i})];
      }
    }
    return Ok((blocks', succ, pred));
  }

  /** What dropping an arm leaves of a terminator. */
  lemma RedirectedArm(t: Terminator, entries: set<BlockId>)
    requires Redirected(t, entries).Some?
    ensures Redirected(t, entries).value ==
      if t.JumpIf? && t.thenBlock in entries then Jump(t.elseBlock) else if t.JumpIf? && t.elseBlock in entries then Jump(t.thenBlock) else t
    ensures t.JumpIf? && (t.thenBlock in entries || t.elseBlock in entries) ==> t.thenBlock != t.elseBlock
  {
  }

  lemma JumpTargets(b: BlockId)
    ensures Targets(Jump(b)) == [b]
  {
  }

  lemma DropDead(blocks: seq<Block>, succ: Graph, pred: Graph, i: nat, dead: BlockId)
    requires i < |blocks| == |succ| && Inverse(succ, pred) && WellFormed(blocks)
    requires var t := blocks[i].terminator; t.JumpIf? && t.thenBlock != t.elseBlock && (dead == t.thenBlock || dead == t.elseBlock)
    requires succ[i] == Targets(blocks[i].terminator)
    ensures dead < |pred| && Inverse(succ[i := Live(succ[i], {dead})], pred[dead := Live(pred[dead], {i})])
    ensures Live(succ[i], {dead}) == [if dead == blocks[i].terminator.thenBlock then blocks[i].terminator.elseBlock else blocks[i].terminator.thenBlock]
  {
    var t := blocks[i].terminator;
    assert dead in Targets(t);
    DropEdge(succ, pred, i, dead);
    DropArm(t.thenBlock, t.elseBlock, dead);
  }

  lemma DropArm(a: BlockId, b: BlockId, dead: BlockId)
    requires (dead == a && b != dead) || (dead == b && a != dead)
    ensures Live([a, b], {dead}) == if dead == a then [b] else [a]
  {
    assert [a, b][1..] == [b] && [b][1..] == [];
    assert Live([b], {dead}) == if b == dead then [] else [b];
  }

  // ── Procedures ───────────────────────────────────────────────────────────

  datatype Procedure = Procedure(entry: BlockId, body: set<BlockId>, returnBlock: Option<BlockId>)

  predicate IsProcedureExit(t: Terminator) {
    t.Return? || t.TrapReturn?
  }

  predicate ExitIn(blocks: seq<Block>, body: set<BlockId>, b: BlockId) {
    b in body && b < |blocks| && IsProcedureExit(blocks[b].terminator)
  }

  /** The blocks reachable from the entry, every leaf among them ending the
      procedure, and its single `Return` if it has one. */
  ghost predicate ValidProcedure(blocks: seq<Block>, successors: Graph, callerSucc: Graph, p: Procedure)
    requires |blocks| == |successors| == |callerSucc|
  {
    && (forall b: nat {:trigger b in p.body} :: b in p.body <==> b < |blocks| && Reach(callerSucc, p.entry, b))
    && (forall b {:trigger b in p.body} :: b in p.body && b < |blocks| && successors[b] == [] ==>
          blocks[b].terminator.Return? || blocks[b].terminator.Trap? || blocks[b].terminator.TrapReturn?)
    && (forall a, b :: ExitIn(blocks, p.body, a) && ExitIn(blocks, p.body, b) ==> a == b)
    && match p.returnBlock
       case Some(b) => b in p.body && b < |blocks| && blocks[b].terminator.Return?
       case None => forall b :: b in p.body && b < |blocks| ==> !blocks[b].terminator.Return?
  }

  /** What is asked of the blocks a procedure reaches: every leaf ends the
      procedure, and at most one block leaves it. */
  ghost predicate ProcedureShape(blocks: seq<Block>, successors: Graph, callerSucc: Graph, entry: BlockId)
    requires |blocks| == |successors| == |callerSucc|
  {
    && (forall b: nat :: b < |blocks| && Reach(callerSucc, entry, b) && successors[b] == [] ==>
          blocks[b].terminator.Return? || blocks[b].terminator.Trap? || blocks[b].terminator.TrapReturn?)
    && (forall a, b :: LeavesAt(blocks, callerSucc, entry, a) && LeavesAt(blocks, callerSucc, entry, b) ==> a == b)
  }

  ghost predicate LeavesAt(blocks: seq<Block>, callerSucc: Graph, entry: BlockId, b: BlockId) {
    b < |blocks| && Reach(callerSucc, entry, b) && IsProcedureExit(blocks[b].terminator)
  }

  method ProcedureBody(entry: BlockId, callerSucc: Graph) returns (body: set<BlockId>)
    requires InRange(callerSucc) && entry < |callerSucc|
    ensures forall b: nat :: b in body <==> b < |callerSucc| && Reach(callerSucc, entry, b)
  {
    body := {entry};
    var stack: seq<nat> := [entry];
    ReachRefl(callerSucc, entry);
    while stack != []
      invariant entry in body
      invariant forall b :: b in stack ==> b in body
      invariant forall b :: b in body ==> b < |callerSucc| && Reach(callerSucc, entry, b)
      invariant forall b: nat, s: nat :: b in body && b !in stack && Edge(callerSucc, b, s) ==> s in body
      decreases Below(|callerSucc|) - body, |stack|
    {
      var b := stack[|stack| - 1];
      var rest := stack[..|stack| - 1];
      assert stack == rest + [b];
      assert b in stack;
      ghost var before := body;
      stack, body := AddSuccessors(callerSucc, entry, b, rest, body);
      if body == before {
        assert stack == rest;
      }
    }
    forall b: nat | b < |callerSucc| && Reach(callerSucc, entry, b)
      ensures b in body
    {
      var p :| PathFromTo(callerSucc, p, entry, b);
      ClosedUnderEdges(callerSucc, body, p);
    }
  }

  method AddSuccessors(callerSucc: Graph, ghost entry: BlockId, b: BlockId, rest: seq<nat>, found: set<BlockId>)
    returns (stack: seq<nat>, body: set<BlockId>)
    requires InRange(callerSucc) && b < |callerSucc| && Reach(callerSucc, entry, b)
    requires forall x :: x in rest ==> x in found
    requires forall x :: x in found ==> x < |callerSucc| && Reach(callerSucc, entry, x)
    ensures found <= body && (body == found ==> stack == rest)
    ensures forall x :: x in stack ==> x in body
    ensures forall x :: x in body ==> x < |callerSucc| && Reach(callerSucc, entry, x)
    ensures forall x :: x in body ==> x in found || x in stack
    ensures forall x :: x in rest ==> x in stack
    ensures forall s: nat :: Edge(callerSucc, b, s) ==> s in body
  {
    stack, body := rest, found;
    for i := 0 to |callerSucc[b]|
      invariant found <= body && (body == found ==> stack == rest)
      invariant forall x :: x in stack ==> x in body
      invariant forall x :: x in body ==> x < |callerSucc| && Reach(callerSucc, entry, x)
      invariant forall x :: x in body ==> x in found || x in stack
      invariant forall x :: x in rest ==> x in stack
      invariant forall j :: 0 <= j < i ==> callerSucc[b][j] in body
    {
      var s := callerSucc[b][i];
      if s !in body {
        assert Edge(callerSucc, b, s);
        ReachEdge(callerSucc, entry, b, s);
        body := body + {s};
        stack := stack + [s];
      }
    }
  }

  lemma {:induction false} ClosedUnderEdges(g: Graph, body: set<nat>, p: seq<nat>)
    requires IsPath(g, p) && p[0] in body
    requires forall b: nat, s: nat :: b in body && Edge(g, b, s) ==> s in body
    ensures p[|p| - 1] in body
    decreases |p|
  {
    if |p| > 1 {
      assert Edge(g, p[0], p[0 + 1]);
      PathSuffix(g, p, p[0], p[|p| - 1], 1);
      ClosedUnderEdges(g, body, p[1..]);
    }
  }

  /** The exits of one body, in block order. */
  method ProcedureExits(blocks: seq<Block>, successors: Graph, body: set<BlockId>) returns (exits: seq<BlockId>, wellFormed: bool)
    requires |blocks| == |successors|
    ensures forall b: nat :: b in exits <==> b < |blocks| && b in body && IsProcedureExit(blocks[b].terminator)
    ensures NoDup(exits)
    ensures wellFormed <==> forall b: nat :: b < |blocks| && b in body && successors[b] == [] ==>
      blocks[b].terminator.Return? || blocks[b].terminator.Trap? || blocks[b].terminator.TrapReturn?
  {
    exits, wellFormed := [], true;
    for i := 0 to |blocks|
      invariant forall b: nat :: b in exits <==> b < i && b in body && IsProcedureExit(blocks[b].terminator)
      invariant NoDup(exits)
      invariant wellFormed <==> forall b: nat :: b < i && b in body && successors[b] == [] ==>
        blocks[b].terminator.Return? || blocks[b].terminator.Trap? || blocks[b].terminator.TrapReturn?
    {
      if i in body {
        if IsProcedureExit(blocks[i].terminator) {
          exits := exits + [i];
        }
        if successors[i] == [] && !(blocks[i].terminator.Return? || blocks[i].terminator.Trap? || blocks[i].terminator.TrapReturn?) {
          wellFormed := false;
        }
      }
    }
  }

  method IdentifyProcedures(blocks: seq<Block>, successors: Graph, callerSucc: Graph, callTargets: seq<BlockId>)
    returns (r: Recovered<seq<Procedure>>)
    requires |blocks| == |successors| == |callerSucc| && InRange(callerSucc)
    requires forall e :: e in callTargets ==> e < |blocks|
    ensures r.Ok? <==> forall e :: e in callTargets ==> ProcedureShape(blocks, successors, callerSucc, e)
    ensures r.Ok? ==>
      && |r.value| == |callTargets|
      && forall i :: 0 <= i < |callTargets| ==>
           r.value[i].entry == callTargets[i] && ValidProcedure(blocks, successors, callerSucc, r.value[i])
  {
    var procedures: seq<Procedure> := [];
    for i := 0 to |callTargets|
      invariant |procedures| == i
      invariant forall j :: 0 <= j < i ==> ProcedureShape(blocks, successors, callerSucc, callTargets[j])
      invariant forall j :: 0 <= j < i ==>
        procedures[j].entry == callTargets[j] && ValidProcedure(blocks, successors, callerSucc, procedures[j])
    {
      var entry := callTargets[i];
      assert entry in callTargets;
      var p := IdentifyProcedure(blocks, successors, callerSucc, entry);
      if p.Err? {
        return Err(p.error);
      }
      procedures := procedures + [p.value];
    }
    return Ok(procedures);
  }

  method IdentifyProcedure(blocks: seq<Block>, successors: Graph, callerSucc: Graph, entry: BlockId) returns (r: Recovered<Procedure>)
    requires |blocks| == |successors| == |callerSucc| && InRange(callerSucc) && entry < |blocks|
    ensures r.Ok? <==> ProcedureShape(blocks, successors, callerSucc, entry)
    ensures r.Ok? ==> r.value.entry == entry && ValidProcedure(blocks, successors, callerSucc, r.value)
  {
    var body := ProcedureBody(entry, callerSucc);
    var exits, wellFormed := ProcedureExits(blocks, successors, body);
    hide Reach;
    assert |exits| > 1 ==> exits[0] in exits && exits[1] in exits && exits[0] != exits[1];
    assert |exits| > 1 ==> LeavesAt(blocks, callerSucc, entry, exits[0]) && LeavesAt(blocks, callerSucc, entry, exits[1]);
    if !wellFormed || |exits| > 1 {
      return Err(UnsupportedBrillig("expected exactly one `Return` or `TrapReturn` exit"));
    }
    assert forall b: nat :: b in exits ==> b == exits[0];
    assert |exits| == 1 ==> exits[0] in exits;
    if |exits| == 1 && blocks[exits[0]].terminator.Return? {
      assert exits[0] in exits;
      return Ok(Procedure(entry, body, Some(exits[0])));
    }
    return Ok(Procedure(entry, body, None));
  }
}
