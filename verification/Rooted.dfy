/** Dominance with respect to several roots, and dominator trees over the
    caller's view: `build_with_super_entry`, `build_post`, `dominates`. */
module Rooted {
  import opened Graphs
  import opened Postorder
  import opened DomTrees
  import opened CfgTypes

  ghost predicate RootPath(g: Graph, roots: seq<nat>, p: seq<nat>, v: nat) {
    IsPath(g, p) && p[0] in roots && p[|p| - 1] == v
  }

  ghost predicate RootReach(g: Graph, roots: seq<nat>, v: nat) {
    exists p :: RootPath(g, roots, p, v)
  }

  /** `d` lies on every path from every root to `v`. */
  ghost predicate RootDominates(g: Graph, roots: seq<nat>, d: nat, v: nat) {
    forall p :: RootPath(g, roots, p, v) ==> d in p
  }

  ghost predicate RootImmediate(g: Graph, roots: seq<nat>, d: nat, v: nat) {
    && d != v && RootDominates(g, roots, d, v)
    && forall e: nat :: e != v && RootDominates(g, roots, e, v) ==> RootDominates(g, roots, e, d)
  }

  /** The table holds exactly the immediate dominators, and the numbering
      covers exactly the reachable blocks, is bounded by their number, and
      decreases towards the roots. */
  ghost predicate ValidDomTree(t: DomTree, g: Graph, roots: seq<nat>) {
    && |t.idom| == |t.rpoIndex| == |g|
    && (forall v: nat :: v < |g| ==> (t.rpoIndex[v].Some? <==> RootReach(g, roots, v)))
    && (forall v: nat :: v < |g| && t.rpoIndex[v].Some? ==> t.rpoIndex[v].value <= |g|)
    && (forall v: nat {:trigger t.idom[v]} :: v < |g| && t.idom[v].Some? ==>
          && RootReach(g, roots, v) && RootImmediate(g, roots, t.idom[v].value, v)
          && t.idom[v].value < |g| && t.rpoIndex[t.idom[v].value].Some? && t.rpoIndex[v].Some?
          && t.rpoIndex[t.idom[v].value].value < t.rpoIndex[v].value)
    && (forall v: nat, e: nat {:trigger t.idom[v], RootDominates(g, roots, e, v)} ::
          v < |g| && RootReach(g, roots, v) && t.idom[v].None? && RootDominates(g, roots, e, v) ==> e == v)
  }

  // ── The graph extended by a virtual node ─────────────────────────────────

  /** `x` is `g` with one more node, which has an edge to every root. */
  ghost predicate Extends(x: Graph, g: Graph, roots: seq<nat>) {
    && |x| == |g| + 1
    && (forall u: nat :: u < |g| ==> x[u] == g[u])
    && x[|g|] == roots
    && (forall r :: r in roots ==> r < |g|)
    && InRange(g)
  }

  lemma RootPathExtended(x: Graph, g: Graph, roots: seq<nat>, p: seq<nat>, v: nat)
    requires Extends(x, g, roots) && RootPath(g, roots, p, v)
    ensures PathFromTo(x, [|g|] + p, |g|, v)
  {
    var q := [|g|] + p;
    assert Edge(x, q[0], q[1]);
    forall i | 0 <= i < |q| - 1
      ensures Edge(x, q[i], q[i + 1])
    {
      if i > 0 {
        assert Edge(g, p[i - 1], p[i - 1 + 1]);
      }
    }
  }

  lemma ExtendedRootPath(x: Graph, g: Graph, roots: seq<nat>, q: seq<nat>, v: nat)
    requires Extends(x, g, roots) && PathFromTo(x, q, |g|, v) && v < |g|
    ensures |q| > 1 && RootPath(g, roots, q[1..], v)
  {
    assert |q| > 1;
    var p := q[1..];
    forall i | 0 <= i < |p|
      ensures p[i] < |g|
    {
      assert Edge(x, q[i], q[i + 1]);
      assert q[i] == |g| || q[i] < |g|;
    }
    forall i | 0 <= i < |p| - 1
      ensures Edge(g, p[i], p[i + 1])
    {
      assert Edge(x, q[i + 1], q[i + 2]);
    }
    assert Edge(x, q[0], q[0 + 1]);
  }

  lemma ExtendedReach(x: Graph, g: Graph, roots: seq<nat>, v: nat)
    requires Extends(x, g, roots) && v < |g|
    ensures Reach(x, |g|, v) <==> RootReach(g, roots, v)
  {
    if RootReach(g, roots, v) {
      var p :| RootPath(g, roots, p, v);
      RootPathExtended(x, g, roots, p, v);
    }
    if Reach(x, |g|, v) {
      var q :| PathFromTo(x, q, |g|, v);
      ExtendedRootPath(x, g, roots, q, v);
    }
  }

  lemma ExtendedDominates(x: Graph, g: Graph, roots: seq<nat>, d: nat, v: nat)
    requires Extends(x, g, roots) && v < |g| && d != |g|
    ensures Dominates(x, |g|, d, v) <==> RootDominates(g, roots, d, v)
  {
    if Dominates(x, |g|, d, v) {
      forall p | RootPath(g, roots, p, v)
        ensures d in p
      {
        RootPathExtended(x, g, roots, p, v);
        assert d in [|g|] + p;
      }
    }
    if RootDominates(g, roots, d, v) {
      forall q | PathFromTo(x, q, |g|, v)
        ensures d in q
      {
        ExtendedRootPath(x, g, roots, q, v);
        assert d in q[1..];
      }
    }
  }

  /** Only `n` itself dominates `n`. */
  lemma DominatesVirtual(x: Graph, n: nat, e: nat)
    requires n < |x| && Dominates(x, n, e, n)
    ensures e == n
  {
    assert PathFromTo(x, [n], n, n);
  }

  function Strip(s: Option<nat>, virt: nat): Option<nat> {
    if s.Some? && s.value == virt then None else s
  }

  lemma StrippedValid(x: Graph, g: Graph, roots: seq<nat>, dom: DomTree, t: DomTree)
    requires Extends(x, g, roots)
    requires IsIdom(x, |g|, dom.rpoIndex, dom.idom)
    requires |t.idom| == |t.rpoIndex| == |g|
    requires forall v: nat :: v < |x| ==> (dom.rpoIndex[v].Some? <==> Reach(x, |g|, v))
    requires forall v: nat :: v < |x| && dom.rpoIndex[v].Some? ==> dom.rpoIndex[v].value <= |g|
    requires forall v: nat :: v < |g| ==> t.idom[v] == Strip(dom.idom[v], |g|) && t.rpoIndex[v] == dom.rpoIndex[v]
    ensures ValidDomTree(t, g, roots)
  {
    forall v: nat | v < |g|
      ensures t.rpoIndex[v].Some? <==> RootReach(g, roots, v)
    {
      ExtendedReach(x, g, roots, v);
    }
    forall v: nat | v < |g| && t.idom[v].Some?
      ensures RootReach(g, roots, v) && RootImmediate(g, roots, t.idom[v].value, v)
      ensures t.idom[v].value < |g| && t.rpoIndex[t.idom[v].value].Some? && t.rpoIndex[v].Some?
      ensures t.rpoIndex[t.idom[v].value].value < t.rpoIndex[v].value
    {
      ExtendedReach(x, g, roots, v);
      var d := t.idom[v].value;
      assert Immediate(x, |g|, d, v);
      ExtendedDominates(x, g, roots, d, v);
      forall e: nat | e != v && RootDominates(g, roots, e, v)
        ensures RootDominates(g, roots, e, d)
      {
        RootDominatorInRange(g, roots, e, v);
        ExtendedDominates(x, g, roots, e, v);
        ExtendedDominates(x, g, roots, e, d);
      }
    }
    forall v: nat, e: nat | v < |g| && RootReach(g, roots, v) && t.idom[v].None? && RootDominates(g, roots, e, v)
      ensures e == v
    {
      ExtendedReach(x, g, roots, v);
      assert dom.idom[v] == Some(|g|);
      assert Immediate(x, |g|, |g|, v);
      RootDominatorInRange(g, roots, e, v);
      ExtendedDominates(x, g, roots, e, v);
      if e != v {
        DominatesVirtual(x, |g|, e);
      }
    }
  }

  lemma RootDominatorInRange(g: Graph, roots: seq<nat>, e: nat, v: nat)
    requires RootReach(g, roots, v) && RootDominates(g, roots, e, v)
    ensures e < |g|
  {
    var p :| RootPath(g, roots, p, v);
    assert e in p;
  }

  // ── Construction ─────────────────────────────────────────────────────────

  lemma EdgeInRange(g: Graph, u: nat, v: nat)
    requires InRange(g) && u < |g| && v in g[u]
    ensures v < |g|
  {
  }

  /** Both adjacency lists stay inverse to each other when the virtual node and
      its edges are added. */
  lemma ExtendedPreds(x: Graph, px: Graph, g: Graph, h: Graph, roots: seq<nat>)
    requires Extends(x, g, roots) && PredsOf(g, h)
    requires |px| == |x| && px[|g|] == []
    requires forall v: nat, u: nat :: v < |g| ==> (u in px[v] <==> u in h[v] || (u == |g| && v in roots))
    ensures PredsOf(x, px) && InRange(x)
  {
    forall u: nat, v: nat | u < |x| && v < |x|
      ensures Edge(x, u, v) <==> Edge(px, v, u)
    {
      if v < |g| {
        if u < |g| {
          assert Edge(g, u, v) <==> Edge(h, v, u);
        } else {
          assert |g| !in h[v];
        }
      } else if u < |g| {
        assert v !in g[u];
      }
    }
    forall v: nat, i | v < |px| && 0 <= i < |px[v]|
      ensures px[v][i] < |px|
    {
      assert px[v][i] in px[v];
      if px[v][i] in h[v] {
        EdgeInRange(h, v, px[v][i]);
      }
    }
    forall u: nat, i | u < |x| && 0 <= i < |x[u]|
      ensures x[u][i] < |x|
    {
      if u == |g| {
        assert x[u][i] in roots;
      }
    }
  }

  method StripTable(dom: DomTree, n: nat) returns (t: DomTree)
    requires |dom.idom| == |dom.rpoIndex| == n + 1
    ensures |t.idom| == |t.rpoIndex| == n
    ensures forall v: nat :: v < n ==> t.idom[v] == Strip(dom.idom[v], n) && t.rpoIndex[v] == dom.rpoIndex[v]
  {
    t := DomTree(seq(n, i requires 0 <= i < n => Strip(dom.idom[i], n)), dom.rpoIndex[..n]);
  }

  method BuildWithSuperEntry(callerSucc: Graph, callerPred: Graph, roots: seq<nat>) returns (t: DomTree)
    requires InRange(callerSucc) && PredsOf(callerSucc, callerPred)
    requires forall r :: r in roots ==> r < |callerSucc|
    ensures ValidDomTree(t, callerSucc, roots)
  {
    var n := |callerSucc|;
    var succExt := callerSucc + [roots];
    var predExt: Graph := callerPred + [[]];
    for i := 0 to |roots|
      invariant |predExt| == n + 1 && predExt[n] == []
      invariant forall v: nat, u: nat :: v < n ==>
        (u in predExt[v] <==> u in callerPred[v] || (u == n && v in roots[..i]))
    {
      var r := roots[i];
      assert r in roots;
      assert roots[..i + 1] == roots[..i] + [r];
      predExt := predExt[r := predExt[r] + [n]];
    }
    assert roots[..|roots|] == roots;
    ExtendedPreds(succExt, predExt, callerSucc, callerPred, roots);
    t := BuildExtended(succExt, predExt, callerSucc, roots);
  }

  method BuildExtended(succExt: Graph, predExt: Graph, ghost g: Graph, ghost roots: seq<nat>) returns (t: DomTree)
    requires Extends(succExt, g, roots) && InRange(succExt) && PredsOf(succExt, predExt)
    ensures ValidDomTree(t, g, roots)
  {
    hide Extends, InRange, PredsOf, ValidDomTree, IsRpo, Numbered, IsIdom;
    var n := |predExt| - 1;
    ExtendsSize(succExt, predExt, g, roots);
    var rpo := ReversePostorder(succExt, n);
    var dom := BuildFromRpo(predExt, rpo, n, n + 1, succExt);
    NumberedReach(succExt, n, rpo, dom);
    t := StripTable(dom, n);
    StrippedValid(succExt, g, roots, dom, t);
  }

  lemma ExtendsSize(x: Graph, px: Graph, g: Graph, roots: seq<nat>)
    requires Extends(x, g, roots) && PredsOf(x, px)
    ensures |x| == |px| == |g| + 1
  {
  }

  lemma NumberedReach(x: Graph, entry: nat, rpo: seq<nat>, dom: DomTree)
    requires Numbered(x, entry, rpo, dom.rpoIndex) && IsIdom(x, entry, dom.rpoIndex, dom.idom)
    ensures |dom.idom| == |dom.rpoIndex| == |x|
    ensures forall v: nat :: v < |x| ==> (dom.rpoIndex[v].Some? <==> Reach(x, entry, v))
    ensures forall v: nat :: v < |x| && dom.rpoIndex[v].Some? ==> dom.rpoIndex[v].value < |x|
  {
    RpoInRange(x, entry, rpo);
    NoDupBound(rpo, |x|);
    NumberRange(x, entry, rpo, dom.rpoIndex);
  }

  /** The blocks that end a body, in order. */
  ghost predicate AreExits(blocks: seq<Block>, exits: seq<nat>) {
    forall v: nat :: v in exits <==> v < |blocks| && IsExit(blocks[v].terminator)
  }

  /** The tree over the reversed graph, rooted at a virtual exit. */
  method BuildPost(blocks: seq<Block>, callerSucc: Graph, callerPred: Graph)
    returns (t: DomTree, ghost exits: seq<nat>)
    requires |blocks| == |callerSucc| && InRange(callerSucc) && PredsOf(callerSucc, callerPred)
    ensures AreExits(blocks, exits) && ValidDomTree(t, callerPred, exits)
  {
    var n := |blocks|;
    var revSucc: Graph := callerPred + [[]];
    var revPred: Graph := callerSucc + [[]];
    for i := 0 to n
      invariant |revSucc| == |revPred| == n + 1 && revPred[n] == []
      invariant forall u: nat :: u < n ==> revSucc[u] == callerPred[u]
      invariant forall v: nat :: v in revSucc[n] <==> v < i && IsExit(blocks[v].terminator)
      invariant forall v: nat, u: nat :: v < n ==>
        (u in revPred[v] <==> u in callerSucc[v] || (u == n && v in revSucc[n]))
    {
      if IsExit(blocks[i].terminator) {
        revSucc := revSucc[n := revSucc[n] + [i]];
        revPred := revPred[i := revPred[i] + [n]];
      }
    }
    exits := revSucc[n];
    assert PredsOf(callerPred, callerSucc);
    ExtendedPreds(revSucc, revPred, callerPred, callerSucc, exits);
    t := BuildExtended(revSucc, revPred, callerPred, exits);
  }

  // ── Queries ──────────────────────────────────────────────────────────────

  lemma RootDominatesTrans(g: Graph, roots: seq<nat>, a: nat, b: nat, c: nat)
    requires RootDominates(g, roots, a, b) && RootDominates(g, roots, b, c)
    ensures RootDominates(g, roots, a, c)
  {
    forall p | RootPath(g, roots, p, c)
      ensures a in p
    {
      var k := FirstIndex(p, b);
      PathPrefix(g, p, p[0], c, k);
      assert RootPath(g, roots, p[..k + 1], b);
      assert a in p[..k + 1];
    }
  }

  lemma RootDominatesSelf(g: Graph, roots: seq<nat>, v: nat)
    ensures RootDominates(g, roots, v, v)
  {
    forall p | RootPath(g, roots, p, v)
      ensures v in p
    {
      assert p[|p| - 1] == v;
    }
  }

  method IsDominator(t: DomTree, dom: BlockId, sub: BlockId, ghost g: Graph, ghost roots: seq<nat>) returns (r: bool)
    requires ValidDomTree(t, g, roots) && sub < |g|
    ensures r <==> RootReach(g, roots, sub) && RootDominates(g, roots, dom, sub)
  {
    if t.rpoIndex[sub].None? {
      return false;
    }
    if dom == sub {
      RootDominatesSelf(g, roots, sub);
      return true;
    }
    var cur: nat := sub;
    while t.idom[cur].Some?
      invariant cur < |g| && RootReach(g, roots, cur) && dom != cur
      invariant RootDominates(g, roots, dom, sub) <==> RootDominates(g, roots, dom, cur)
      decreases t.rpoIndex[cur].value
    {
      var p := t.idom[cur].value;
      assert RootImmediate(g, roots, p, cur);
      if p == dom {
        return true;
      }
      if p == cur {
        return false;
      }
      if RootDominates(g, roots, dom, p) {
        RootDominatesTrans(g, roots, dom, p, cur);
      }
      cur := p;
    }
    return false;
  }

  /** Every edge between reachable blocks that does not go forward in the
      numbering leads to a dominator of its source. */
  ghost predicate Reducible(t: DomTree, g: Graph, roots: seq<nat>)
    requires ValidDomTree(t, g, roots)
  {
    forall u: nat, v: nat {:trigger Edge(g, u, v), t.rpoIndex[u], t.rpoIndex[v]} ::
      Edge(g, u, v) && v < |g| && t.rpoIndex[u].Some? && t.rpoIndex[v].Some? ==>
      t.rpoIndex[u].value < t.rpoIndex[v].value || RootDominates(g, roots, v, u)
  }

  method CheckReducible(successors: Graph, dominators: DomTree, ghost roots: seq<nat>) returns (ok: bool)
    requires InRange(successors) && ValidDomTree(dominators, successors, roots)
    ensures ok <==> Reducible(dominators, successors, roots)
  {
    var n := |successors|;
    for u := 0 to n
      invariant forall u', v: nat :: 0 <= u' < u && Edge(successors, u', v) && v < n && dominators.rpoIndex[u'].Some? && dominators.rpoIndex[v].Some? ==>
        dominators.rpoIndex[u'].value < dominators.rpoIndex[v].value || RootDominates(successors, roots, v, u')
    {
      if dominators.rpoIndex[u].None? {
        continue;
      }
      for i := 0 to |successors[u]|
        invariant forall j :: 0 <= j < i && dominators.rpoIndex[successors[u][j]].Some? ==>
          var v := successors[u][j];
          dominators.rpoIndex[u].value < dominators.rpoIndex[v].value || RootDominates(successors, roots, v, u)
      {
        var v := successors[u][i];
        if dominators.rpoIndex[v].None? {
          continue;
        }
        var forward := dominators.rpoIndex[u].value < dominators.rpoIndex[v].value;
        if !forward {
          var dominated := IsDominator(dominators, v, u, successors, roots);
          if !dominated {
            assert Edge(successors, u, v);
            return false;
          }
        }
      }
    }
    return true;
  }
}
