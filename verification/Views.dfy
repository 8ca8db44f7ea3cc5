/** Successor lists of the blocks, their inversion, and the caller's view. */
module Views {
  import opened Graphs
  import opened CfgTypes

  function Targets(t: Terminator): seq<BlockId> {
    match t
    case Jump(target) => [target]
    case Fallthrough(target) => [target]
    case JumpIf(_, thenBlock, elseBlock) => [thenBlock, elseBlock]
    case Call(callee, continuation) => [callee, continuation]
    case _ => []
  }

  /** The exits are the terminators that lead nowhere, except that of a block that
      is never entered. */
  lemma ExitsLeadNowhere(t: Terminator)
    ensures IsExit(t) <==> Targets(t) == [] && t != Unreachable
  {
  }

  /** Every terminator leads to a block. */
  predicate WellFormed(blocks: seq<Block>) {
    forall b, t :: 0 <= b < |blocks| && t in Targets(blocks[b].terminator) ==> t < |blocks|
  }

  function ComputeSuccessors(blocks: seq<Block>): Graph {
    seq(|blocks|, b requires 0 <= b < |blocks| => Targets(blocks[b].terminator))
  }

  /** The edges of all blocks below `from` and the first `i` edges of `from`
      are reversed. */
  ghost predicate Inverting(g: Graph, h: Graph, from: nat, i: nat) {
    && |h| == |g| && InRange(h)
    && (from < |g| ==> i <= |g[from]|)
    && forall u: nat, v: nat :: u < |g| && v < |g| ==>
         multiset(h[v])[u] == if u < from then multiset(g[u])[v] else if u == from then multiset(g[u][..i])[v] else 0
  }

  lemma InvertingStep(g: Graph, h: Graph, from: nat, i: nat)
    requires InRange(g) && from < |g| && i < |g[from]| && Inverting(g, h, from, i)
    ensures var to := g[from][i]; Inverting(g, h[to := h[to] + [from]], from, i + 1)
  {
    var to := g[from][i];
    assert g[from][..i + 1] == g[from][..i] + [to];
  }

  lemma InvertingNext(g: Graph, h: Graph, from: nat)
    requires from < |g| && Inverting(g, h, from, |g[from]|)
    ensures Inverting(g, h, from + 1, 0)
  {
    assert g[from][..|g[from]|] == g[from];
    forall u: nat, v: nat | u < |g| && v < |g|
      ensures multiset(h[v])[u] ==
                if u < from + 1 then multiset(g[u])[v] else if u == from + 1 then multiset(g[u][..0])[v] else 0
    {
      assert g[u][..0] == [];
      assert multiset(h[v])[u] ==
        if u < from then multiset(g[u])[v] else if u == from then multiset(g[u][..|g[from]|])[v] else 0;
    }
  }

  /** Reverses every edge, keeping its multiplicity. */
  method InvertEdges(successors: Graph) returns (predecessors: Graph)
    requires InRange(successors)
    ensures Inverse(successors, predecessors) && InRange(predecessors)
  {
    var n := |successors|;
    predecessors := seq(n, _ => []);
    for from := 0 to n
      invariant Inverting(successors, predecessors, from, 0)
    {
      for i := 0 to |successors[from]|
        invariant Inverting(successors, predecessors, from, i)
      {
        var to := successors[from][i];
        InvertingStep(successors, predecessors, from, i);
        predecessors := predecessors[to := predecessors[to] + [from]];
      }
      InvertingNext(successors, predecessors, from);
    }
  }

  /** A returning call continues after the call, a diverging one nowhere. */
  function CallerSuccessors(t: Terminator, succ: seq<BlockId>, divergentEntries: set<BlockId>): seq<BlockId> {
    if t.Call? then
      if t.callee in divergentEntries then [] else [t.continuation]
    else succ
  }

  function CallerView(blocks: seq<Block>, successors: Graph, divergentEntries: set<BlockId>): Graph
    requires |blocks| == |successors|
  {
    seq(|blocks|, b requires 0 <= b < |blocks| =>
      CallerSuccessors(blocks[b].terminator, successors[b], divergentEntries))
  }

  /** Drops the edges into `dead`. */
  function Live(succ: seq<BlockId>, dead: set<BlockId>): (r: seq<BlockId>)
    ensures forall s :: s in r <==> s in succ && s !in dead
  {
    if succ == [] then []
    else if succ[0] in dead then Live(succ[1..], dead)
    else [succ[0]] + Live(succ[1..], dead)
  }

  function LiveView(callerSucc: Graph, dead: set<BlockId>): (r: Graph)
    ensures |r| == |callerSucc|
    ensures forall u: nat, v: nat {:trigger Edge(r, u, v)} :: Edge(r, u, v) <==> Edge(callerSucc, u, v) && v !in dead
  {
    seq(|callerSucc|, b requires 0 <= b < |callerSucc| => Live(callerSucc[b], dead))
  }

  ghost predicate IsCallTarget(blocks: seq<Block>, e: BlockId, n: nat)
    requires n <= |blocks|
  {
    exists c :: 0 <= c < n && blocks[c].terminator.Call? && blocks[c].terminator.callee == e
  }

  /** The distinct call targets, ascending. */
  method UniqueCallTargets(blocks: seq<Block>) returns (targets: seq<BlockId>)
    requires WellFormed(blocks)
    ensures forall e: nat :: e in targets <==> IsCallTarget(blocks, e, |blocks|)
    ensures forall i, j :: 0 <= i < j < |targets| ==> targets[i] < targets[j]
    ensures forall e :: e in targets ==> e < |blocks|
  {
    var seen: set<BlockId> := {};
    for b := 0 to |blocks|
      invariant forall e: nat :: e in seen <==> IsCallTarget(blocks, e, b)
    {
      if blocks[b].terminator.Call? {
        seen := seen + {blocks[b].terminator.callee};
      }
    }
    forall e: nat | e in seen
      ensures e < |blocks|
    {
      var c :| 0 <= c < |blocks| && blocks[c].terminator.Call? && blocks[c].terminator.callee == e;
      assert e in Targets(blocks[c].terminator);
    }
    targets := [];
    for e := 0 to |blocks|
      invariant forall t: nat :: t in targets <==> t in seen && t < e
      invariant forall i, j :: 0 <= i < j < |targets| ==> targets[i] < targets[j]
      invariant forall i :: 0 <= i < |targets| ==> targets[i] < e
    {
      if e in seen {
        targets := targets + [e];
      }
    }
  }
}
