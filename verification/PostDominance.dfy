/** Post-dominance: what the dominator tree of the reversed graph says about
    the paths to the exits of the graph itself. */
module PostDominance {
  import opened Graphs
  import opened DomTrees
  import opened CfgTypes
  import opened Rooted

  ghost predicate ExitPath(g: Graph, blocks: seq<Block>, p: seq<nat>, v: nat) {
    && IsPath(g, p) && p[0] == v
    && p[|p| - 1] < |blocks| && IsExit(blocks[p[|p| - 1]].terminator)
  }

  ghost predicate ReachesExit(g: Graph, blocks: seq<Block>, v: nat) {
    exists p :: ExitPath(g, blocks, p, v)
  }

  /** `d` lies on every path from `v` to an exit. */
  ghost predicate PostDominates(g: Graph, blocks: seq<Block>, d: nat, v: nat) {
    forall p :: ExitPath(g, blocks, p, v) ==> d in p
  }

  /** The table holds exactly the immediate post-dominators. */
  ghost predicate ValidPostDom(t: DomTree, g: Graph, blocks: seq<Block>) {
    && |t.idom| == |g| == |blocks|
    && (forall v: nat {:trigger t.idom[v]} :: v < |g| && t.idom[v].Some? ==>
          && ReachesExit(g, blocks, v)
          && t.idom[v].value != v && t.idom[v].value < |g|
          && PostDominates(g, blocks, t.idom[v].value, v))
    && (forall v: nat, e: nat {:trigger t.idom[v], PostDominates(g, blocks, e, v)} ::
          v < |g| && t.idom[v].Some? && e != v && PostDominates(g, blocks, e, v) ==> PostDominates(g, blocks, e, t.idom[v].value))
    && (forall v: nat, e: nat {:trigger t.idom[v], PostDominates(g, blocks, e, v)} ::
          v < |g| && t.idom[v].None? && ReachesExit(g, blocks, v) && PostDominates(g, blocks, e, v) ==> e == v)
  }

  ghost function Reversed(p: seq<nat>): (q: seq<nat>)
    ensures |q| == |p| && forall i :: 0 <= i < |p| ==> q[i] == p[|p| - 1 - i]
  {
    seq(|p|, i requires 0 <= i < |p| => p[|p| - 1 - i])
  }

  lemma ReversedSame(p: seq<nat>, d: nat)
    ensures d in Reversed(p) <==> d in p
  {
    if d in p {
      var i :| 0 <= i < |p| && p[i] == d;
      assert Reversed(p)[|p| - 1 - i] == d;
    }
  }

  lemma ReversedPath(g: Graph, h: Graph, p: seq<nat>)
    requires PredsOf(g, h) && IsPath(g, p)
    ensures IsPath(h, Reversed(p))
  {
    var q := Reversed(p);
    forall i | 0 <= i < |q| - 1
      ensures Edge(h, q[i], q[i + 1])
    {
      var j := |p| - 2 - i;
      assert Edge(g, p[j], p[j + 1]);
    }
  }

  /** Exit paths are the reversed root paths of the reversed graph. */
  lemma ExitPathRoot(g: Graph, h: Graph, blocks: seq<Block>, exits: seq<nat>, p: seq<nat>, v: nat)
    requires PredsOf(g, h) && AreExits(blocks, exits)
    requires ExitPath(g, blocks, p, v)
    ensures RootPath(h, exits, Reversed(p), v)
  {
    ReversedPath(g, h, p);
  }

  lemma RootPathExit(g: Graph, h: Graph, blocks: seq<Block>, exits: seq<nat>, p: seq<nat>, v: nat)
    requires PredsOf(g, h) && InRange(g) && AreExits(blocks, exits)
    requires RootPath(h, exits, p, v)
    ensures ExitPath(g, blocks, Reversed(p), v)
  {
    assert PredsOf(h, g);
    ReversedPath(h, g, p);
  }

  lemma ReachesExitRoot(g: Graph, h: Graph, blocks: seq<Block>, exits: seq<nat>, v: nat)
    requires PredsOf(g, h) && InRange(g) && AreExits(blocks, exits)
    ensures ReachesExit(g, blocks, v) <==> RootReach(h, exits, v)
  {
    if ReachesExit(g, blocks, v) {
      var p :| ExitPath(g, blocks, p, v);
      ExitPathRoot(g, h, blocks, exits, p, v);
    }
    if RootReach(h, exits, v) {
      var p :| RootPath(h, exits, p, v);
      RootPathExit(g, h, blocks, exits, p, v);
    }
  }

  lemma PostDominatesRoot(g: Graph, h: Graph, blocks: seq<Block>, exits: seq<nat>, d: nat, v: nat)
    requires PredsOf(g, h) && InRange(g) && AreExits(blocks, exits)
    ensures PostDominates(g, blocks, d, v) <==> RootDominates(h, exits, d, v)
  {
    if PostDominates(g, blocks, d, v) {
      forall p | RootPath(h, exits, p, v)
        ensures d in p
      {
        RootPathExit(g, h, blocks, exits, p, v);
        ReversedSame(p, d);
      }
    }
    if RootDominates(h, exits, d, v) {
      forall p | ExitPath(g, blocks, p, v)
        ensures d in p
      {
        ExitPathRoot(g, h, blocks, exits, p, v);
        ReversedSame(p, d);
      }
    }
  }

  lemma ValidFromReversed(t: DomTree, g: Graph, h: Graph, blocks: seq<Block>, exits: seq<nat>)
    requires PredsOf(g, h) && InRange(g) && AreExits(blocks, exits) && |blocks| == |g|
    requires ValidDomTree(t, h, exits)
    ensures ValidPostDom(t, g, blocks)
  {
    forall v: nat | v < |g| && t.idom[v].Some?
      ensures ReachesExit(g, blocks, v)
      ensures t.idom[v].value != v && t.idom[v].value < |g|
      ensures PostDominates(g, blocks, t.idom[v].value, v)
      ensures forall e: nat :: e != v && PostDominates(g, blocks, e, v) ==> PostDominates(g, blocks, e, t.idom[v].value)
    {
      var d := t.idom[v].value;
      assert RootImmediate(h, exits, d, v);
      ReachesExitRoot(g, h, blocks, exits, v);
      PostDominatesRoot(g, h, blocks, exits, d, v);
      forall e: nat | e != v && PostDominates(g, blocks, e, v)
        ensures PostDominates(g, blocks, e, d)
      {
        PostDominatesRoot(g, h, blocks, exits, e, v);
        PostDominatesRoot(g, h, blocks, exits, e, d);
      }
    }
    forall v: nat, e: nat | v < |g| && t.idom[v].None? && ReachesExit(g, blocks, v) && PostDominates(g, blocks, e, v)
      ensures e == v
    {
      ReachesExitRoot(g, h, blocks, exits, v);
      PostDominatesRoot(g, h, blocks, exits, e, v);
    }
  }
}
