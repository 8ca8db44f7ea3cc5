/** Dominator trees by the Cooper-Harvey-Kennedy iteration. */
module DomTrees {
  import opened Graphs
  import opened Postorder

  /** `rpoIndex[v]` is the position of `v` in reverse postorder, `None` for a
      node that is not reached. */
  datatype DomTree = DomTree(idom: seq<Option<nat>>, rpoIndex: seq<Option<nat>>)

  // ── The facts a link `v -> d` of the tree under construction satisfies ───

  /** A depth-first numbering of the graph the iteration runs on. */
  ghost predicate Numbered(g: Graph, entry: nat, rpo: seq<nat>, ri: seq<Option<nat>>) {
    && InRange(g) && entry < |g|
    && IsRpo(g, entry, rpo)
    && |ri| == |g|
    && (forall v: nat :: v < |g| ==> (ri[v].Some? <==> Reach(g, entry, v)))
    && (forall i :: 0 <= i < |rpo| ==> rpo[i] < |g| && ri[rpo[i]] == Some(i))
  }

  function Index(ri: seq<Option<nat>>, v: nat): nat {
    if v < |ri| && ri[v].Some? then ri[v].value else 0
  }

  /** Every node of `p` but the first has a number above `floor`. */
  ghost predicate StaysAbove(ri: seq<Option<nat>>, p: seq<nat>, floor: nat) {
    forall i :: 0 < i < |p| ==> p[i] < |ri| && ri[p[i]].Some? && ri[p[i]].value > floor
  }

  /** Some path from `d` to `v` keeps to larger numbers than that of `d`. */
  ghost predicate Descends(g: Graph, ri: seq<Option<nat>>, d: nat, v: nat) {
    exists p :: PathFromTo(g, p, d, v) && StaysAbove(ri, p, Index(ri, d))
  }

  /** Every proper dominator of `v` dominates `d`. */
  ghost predicate KeepsDominators(g: Graph, entry: nat, d: nat, v: nat) {
    forall e: nat :: e != v && Dominates(g, entry, e, v) ==> Dominates(g, entry, e, d)
  }

  /** The number of edges of `p` that do not go forward in the numbering. */
  ghost function Retreats(ri: seq<Option<nat>>, p: seq<nat>): nat {
    if |p| < 2 then 0
    else
      var n := |p| - 1;
      Retreats(ri, p[..n]) + (if Index(ri, p[n - 1]) < Index(ri, p[n]) then 0 else 1)
  }

  /** Every path to `v` with fewer than `k` retreating edges runs through `d`. */
  ghost predicate OnPaths(g: Graph, entry: nat, ri: seq<Option<nat>>, k: nat, d: nat, v: nat) {
    forall p :: PathFromTo(g, p, entry, v) && Retreats(ri, p) < k ==> d in p
  }

  ghost predicate Link(g: Graph, entry: nat, ri: seq<Option<nat>>, d: nat, v: nat) {
    && d < |g| && v < |g| && |ri| == |g|
    && ri[d].Some? && ri[v].Some? && ri[d].value < ri[v].value
    && Descends(g, ri, d, v)
    && KeepsDominators(g, entry, d, v)
  }

  /** A partial tree: chains of links lead to `entry`, which links to itself. */
  ghost predicate Tree(g: Graph, entry: nat, ri: seq<Option<nat>>, idom: seq<Option<nat>>) {
    && |idom| == |ri| == |g| && entry < |g|
    && idom[entry] == Some(entry)
    && ri[entry] == Some(0)
    && (forall v: nat {:trigger idom[v].value} :: v < |g| && idom[v].Some? && v != entry ==>
          && Link(g, entry, ri, idom[v].value, v)
          && idom[idom[v].value].Some?)
  }

  /** `e` is met on the way up from `v`. */
  ghost predicate InChain(g: Graph, entry: nat, ri: seq<Option<nat>>, idom: seq<Option<nat>>, e: nat, v: nat)
    requires Tree(g, entry, ri, idom) && v < |g| && idom[v].Some?
    decreases Index(ri, v)
  {
    e == v || (v != entry && InChain(g, entry, ri, idom, e, idom[v].value))
  }

  lemma {:induction false} ChainIndex(g: Graph, entry: nat, ri: seq<Option<nat>>, idom: seq<Option<nat>>, e: nat, v: nat)
    requires Tree(g, entry, ri, idom) && v < |g| && idom[v].Some?
    requires InChain(g, entry, ri, idom, e, v)
    ensures e < |g| && idom[e].Some? && Index(ri, e) <= Index(ri, v)
    ensures e != v ==> Index(ri, e) < Index(ri, v)
    decreases Index(ri, v)
  {
    if e != v {
      ChainIndex(g, entry, ri, idom, e, idom[v].value);
    }
  }

  lemma {:induction false} ChainTrans(g: Graph, entry: nat, ri: seq<Option<nat>>, idom: seq<Option<nat>>,
                                      e: nat, d: nat, v: nat)
    requires Tree(g, entry, ri, idom) && v < |g| && idom[v].Some?
    requires InChain(g, entry, ri, idom, d, v)
    requires d < |g| && idom[d].Some? && InChain(g, entry, ri, idom, e, d)
    ensures InChain(g, entry, ri, idom, e, v)
    decreases Index(ri, v)
  {
    if d != v {
      ChainTrans(g, entry, ri, idom, e, d, idom[v].value);
    }
  }

  /** From a chain element there is a path down to `v` over larger numbers. */
  lemma {:induction false} ChainDescends(g: Graph, entry: nat, ri: seq<Option<nat>>, idom: seq<Option<nat>>,
                                         e: nat, v: nat)
    requires Tree(g, entry, ri, idom) && v < |g| && idom[v].Some?
    requires InChain(g, entry, ri, idom, e, v)
    ensures Descends(g, ri, e, v)
    decreases Index(ri, v)
  {
    if e == v {
      assert PathFromTo(g, [v], v, v) && StaysAbove(ri, [v], Index(ri, v));
    } else {
      var d := idom[v].value;
      ChainDescends(g, entry, ri, idom, e, d);
      ChainIndex(g, entry, ri, idom, e, d);
      DescendsTrans(g, ri, e, d, v);
    }
  }

  lemma DescendsTrans(g: Graph, ri: seq<Option<nat>>, e: nat, d: nat, v: nat)
    requires Descends(g, ri, e, d) && Descends(g, ri, d, v)
    requires Index(ri, e) <= Index(ri, d)
    ensures Descends(g, ri, e, v)
  {
    var p :| PathFromTo(g, p, e, d) && StaysAbove(ri, p, Index(ri, e));
    var q :| PathFromTo(g, q, d, v) && StaysAbove(ri, q, Index(ri, d));
    PathConcat(g, p, q, e, d, v);
    var r := p + q[1..];
    forall i | 0 < i < |r|
      ensures r[i] < |ri| && ri[r[i]].Some? && ri[r[i]].value > Index(ri, e)
    {
      if i >= |p| {
        assert r[i] == q[i - |p| + 1];
      }
    }
    assert StaysAbove(ri, r, Index(ri, e));
  }

  lemma DominatesEntry(g: Graph, entry: nat, e: nat)
    requires entry < |g| && Dominates(g, entry, e, entry)
    ensures e == entry
  {
    assert PathFromTo(g, [entry], entry, entry);
  }

  /** Dominators of `v` are met on the way up from `v`. */
  lemma {:induction false} DominatorsInChain(g: Graph, entry: nat, ri: seq<Option<nat>>, idom: seq<Option<nat>>,
                                             e: nat, v: nat)
    requires Tree(g, entry, ri, idom) && v < |g| && idom[v].Some?
    requires Dominates(g, entry, e, v)
    ensures InChain(g, entry, ri, idom, e, v)
    decreases Index(ri, v)
  {
    if e == v {
    } else if v == entry {
      DominatesEntry(g, entry, e);
    } else {
      assert Link(g, entry, ri, idom[v].value, v);
      DominatorsInChain(g, entry, ri, idom, e, idom[v].value);
    }
  }

  /** A dominator of `v` with a smaller number than a chain element `d` of `v`
      dominates `d`. */
  lemma DominatorAbove(g: Graph, entry: nat, ri: seq<Option<nat>>, idom: seq<Option<nat>>, e: nat, d: nat, v: nat)
    requires Tree(g, entry, ri, idom) && v < |g| && idom[v].Some?
    requires InChain(g, entry, ri, idom, d, v)
    requires Dominates(g, entry, e, v)
    requires e < |g| && ri[e].Some? && ri[e].value <= Index(ri, d)
    requires ri[e].value == Index(ri, d) ==> e == d
    ensures Dominates(g, entry, e, d)
  {
    forall p | PathFromTo(g, p, entry, d)
      ensures e in p
    {
      if e == d {
        assert p[|p| - 1] == e;
      } else {
        ChainDescends(g, entry, ri, idom, d, v);
        var q :| PathFromTo(g, q, d, v) && StaysAbove(ri, q, Index(ri, d));
        PathConcat(g, p, q, entry, d, v);
        var r := p + q[1..];
        assert e in r;
        var i :| 0 <= i < |r| && r[i] == e;
      }
    }
  }

  // ── What the intersection of the processed predecessors is ───────────────

  ghost predicate Processed(idom: seq<Option<nat>>, q: nat) {
    q < |idom| && idom[q].Some?
  }

  ghost predicate Common(g: Graph, entry: nat, ri: seq<Option<nat>>, idom: seq<Option<nat>>, qs: set<nat>, e: nat)
    requires Tree(g, entry, ri, idom)
  {
    forall q :: q in qs ==> Processed(idom, q) && InChain(g, entry, ri, idom, e, q)
  }

  /** `c` is the deepest node met on the way up from all of `qs`. */
  ghost predicate Meet(g: Graph, entry: nat, ri: seq<Option<nat>>, idom: seq<Option<nat>>, qs: set<nat>, c: nat)
    requires Tree(g, entry, ri, idom)
  {
    && Processed(idom, c)
    && Common(g, entry, ri, idom, qs, c)
    && (forall e: nat :: Common(g, entry, ri, idom, qs, e) ==> InChain(g, entry, ri, idom, e, c))
  }

  ghost predicate Injective(ri: seq<Option<nat>>) {
    forall u: nat, v: nat :: u < |ri| && v < |ri| && ri[u].Some? && ri[u] == ri[v] ==> u == v
  }

  /** `a` and `b` are reached from `a0` and `b0` without passing a common chain
      element. */
  ghost predicate Cursors(g: Graph, entry: nat, ri: seq<Option<nat>>, idom: seq<Option<nat>>,
                          a0: nat, b0: nat, a: nat, b: nat)
    requires Tree(g, entry, ri, idom)
  {
    && Processed(idom, a0) && Processed(idom, b0) && Processed(idom, a) && Processed(idom, b)
    && InChain(g, entry, ri, idom, a, a0) && InChain(g, entry, ri, idom, b, b0)
    && forall e: nat :: Common(g, entry, ri, idom, {a0, b0}, e) ==>
         InChain(g, entry, ri, idom, e, a) && InChain(g, entry, ri, idom, e, b)
  }

  lemma ProcessedNumbered(g: Graph, entry: nat, ri: seq<Option<nat>>, idom: seq<Option<nat>>, v: nat)
    requires Tree(g, entry, ri, idom) && Processed(idom, v)
    ensures v < |ri| && ri[v].Some?
  {
  }

  lemma Climb(g: Graph, entry: nat, ri: seq<Option<nat>>, idom: seq<Option<nat>>, a0: nat, b0: nat, a: nat, b: nat)
    requires Tree(g, entry, ri, idom) && Injective(ri)
    requires Cursors(g, entry, ri, idom, a0, b0, a, b)
    requires Index(ri, a) > Index(ri, b)
    ensures Processed(idom, idom[a].value) && Index(ri, idom[a].value) < Index(ri, a)
    ensures Cursors(g, entry, ri, idom, a0, b0, idom[a].value, b)
  {
    assert a != entry;
    var up := idom[a].value;
    assert Link(g, entry, ri, up, a);
    assert InChain(g, entry, ri, idom, up, a);
    ChainTrans(g, entry, ri, idom, up, a, a0);
    forall e: nat | Common(g, entry, ri, idom, {a0, b0}, e)
      ensures InChain(g, entry, ri, idom, e, up)
    {
      ChainIndex(g, entry, ri, idom, e, b);
    }
  }

  lemma CursorsSwap(g: Graph, entry: nat, ri: seq<Option<nat>>, idom: seq<Option<nat>>, a0: nat, b0: nat, a: nat, b: nat)
    requires Tree(g, entry, ri, idom)
    requires Cursors(g, entry, ri, idom, a0, b0, a, b)
    ensures Cursors(g, entry, ri, idom, b0, a0, b, a)
  {
    assert {a0, b0} == {b0, a0};
  }

  lemma CursorsMeet(g: Graph, entry: nat, ri: seq<Option<nat>>, idom: seq<Option<nat>>, a0: nat, b0: nat, c: nat)
    requires Tree(g, entry, ri, idom)
    requires Cursors(g, entry, ri, idom, a0, b0, c, c)
    ensures Meet(g, entry, ri, idom, {a0, b0}, c)
  {
  }

  lemma CursorsStart(g: Graph, entry: nat, ri: seq<Option<nat>>, idom: seq<Option<nat>>, a0: nat, b0: nat)
    requires Tree(g, entry, ri, idom) && Processed(idom, a0) && Processed(idom, b0)
    ensures Cursors(g, entry, ri, idom, a0, b0, a0, b0)
  {
  }

  lemma CursorsProcessed(g: Graph, entry: nat, ri: seq<Option<nat>>, idom: seq<Option<nat>>, a0: nat, b0: nat, a: nat, b: nat)
    requires Tree(g, entry, ri, idom)
    requires Cursors(g, entry, ri, idom, a0, b0, a, b)
    ensures Processed(idom, a) && Processed(idom, b)
    ensures a < |ri| && ri[a].Some? && b < |ri| && ri[b].Some?
  {
  }

  /** The two cursors climb to the deepest common chain element; neither ever
      leaves the processed nodes. */
  method Intersect(a0: nat, b0: nat, idom: seq<Option<nat>>, rpoIndex: seq<Option<nat>>, ghost g: Graph, ghost entry: nat)
    returns (c: nat)
    requires Tree(g, entry, rpoIndex, idom) && Injective(rpoIndex)
    requires Processed(idom, a0) && Processed(idom, b0)
    ensures Meet(g, entry, rpoIndex, idom, {a0, b0}, c)
  {
    hide Tree, Injective, Cursors, Meet;
    var a: nat, b: nat := a0, b0;
    CursorsStart(g, entry, rpoIndex, idom, a0, b0);
    while a != b
      invariant Cursors(g, entry, rpoIndex, idom, a0, b0, a, b)
      decreases Index(rpoIndex, a) + Index(rpoIndex, b)
    {
      CursorsProcessed(g, entry, rpoIndex, idom, a0, b0, a, b);
      ghost var before := Index(rpoIndex, a) + Index(rpoIndex, b);
      while rpoIndex[a].value > rpoIndex[b].value
        invariant Cursors(g, entry, rpoIndex, idom, a0, b0, a, b)
        invariant Processed(idom, a) && a < |rpoIndex| && rpoIndex[a].Some?
        invariant Index(rpoIndex, a) + Index(rpoIndex, b) < before || (Index(rpoIndex, a) + Index(rpoIndex, b) == before && a != b)
        decreases Index(rpoIndex, a)
      {
        Climb(g, entry, rpoIndex, idom, a0, b0, a, b);
        a := idom[a].value;
        CursorsProcessed(g, entry, rpoIndex, idom, a0, b0, a, b);
      }
      while rpoIndex[b].value > rpoIndex[a].value
        invariant Cursors(g, entry, rpoIndex, idom, a0, b0, a, b)
        invariant Processed(idom, b) && b < |rpoIndex| && rpoIndex[b].Some?
        invariant Index(rpoIndex, a) + Index(rpoIndex, b) < before || (Index(rpoIndex, a) + Index(rpoIndex, b) == before && a != b && rpoIndex[a].value <= rpoIndex[b].value)
        decreases Index(rpoIndex, b)
      {
        CursorsSwap(g, entry, rpoIndex, idom, a0, b0, a, b);
        Climb(g, entry, rpoIndex, idom, b0, a0, b, a);
        b := idom[b].value;
        CursorsSwap(g, entry, rpoIndex, idom, b0, a0, b, a);
        CursorsProcessed(g, entry, rpoIndex, idom, a0, b0, a, b);
      }
      SameIndex(rpoIndex, a, b);
    }
    c := a;
    CursorsMeet(g, entry, rpoIndex, idom, a0, b0, c);
  }

  lemma SameIndex(ri: seq<Option<nat>>, a: nat, b: nat)
    requires Injective(ri) && a < |ri| && b < |ri| && ri[a].Some? && ri[b].Some?
    ensures ri[a].value == ri[b].value ==> a == b
  {
    assert ri[a].value == ri[b].value ==> ri[a] == ri[b];
  }

  lemma MeetSingle(g: Graph, entry: nat, ri: seq<Option<nat>>, idom: seq<Option<nat>>, q: nat)
    requires Tree(g, entry, ri, idom) && Processed(idom, q)
    ensures Meet(g, entry, ri, idom, {q}, q)
  {
  }

  lemma MeetMore(g: Graph, entry: nat, ri: seq<Option<nat>>, idom: seq<Option<nat>>, qs: set<nat>, c: nat, q: nat, c': nat)
    requires Tree(g, entry, ri, idom)
    requires Meet(g, entry, ri, idom, qs, c) && Processed(idom, q)
    requires Meet(g, entry, ri, idom, {c, q}, c')
    ensures Meet(g, entry, ri, idom, qs + {q}, c')
  {
    assert InChain(g, entry, ri, idom, c', c) && InChain(g, entry, ri, idom, c', q);
    forall r | r in qs
      ensures Processed(idom, r) && InChain(g, entry, ri, idom, c', r)
    {
      ChainTrans(g, entry, ri, idom, c', c, r);
    }
    forall e: nat | Common(g, entry, ri, idom, qs + {q}, e)
      ensures InChain(g, entry, ri, idom, e, c')
    {
      assert Common(g, entry, ri, idom, qs, e);
      assert Common(g, entry, ri, idom, {c, q}, e);
    }
  }

  // ── One assignment of the iteration ──────────────────────────────────────

  lemma {:induction false} RetreatsPrefix(ri: seq<Option<nat>>, p: seq<nat>, k: nat)
    requires k <= |p|
    ensures Retreats(ri, p[..k]) <= Retreats(ri, p)
    decreases |p|
  {
    if k == |p| {
      assert p[..k] == p;
    } else if |p| >= 2 {
      RetreatsPrefix(ri, p[..|p| - 1], k);
      assert p[..|p| - 1][..k] == p[..k];
    }
  }

  lemma {:induction false} RetreatsLength(ri: seq<Option<nat>>, p: seq<nat>)
    requires |p| > 0
    ensures Retreats(ri, p) < |p|
    decreases |p|
  {
    if |p| >= 2 {
      RetreatsLength(ri, p[..|p| - 1]);
    }
  }

  /** The chain of `v` lies on every path to `v` with few retreating edges. */
  lemma {:induction false} ChainOnPaths(g: Graph, entry: nat, ri: seq<Option<nat>>, idom: seq<Option<nat>>,
                                        m: nat, e: nat, v: nat, p: seq<nat>)
    requires Tree(g, entry, ri, idom) && Processed(idom, v)
    requires InChain(g, entry, ri, idom, e, v)
    requires PathFromTo(g, p, entry, v) && Retreats(ri, p) < m
    requires forall u: nat :: u != entry && Processed(idom, u) && Index(ri, u) <= Index(ri, v) ==>
               OnPaths(g, entry, ri, m, idom[u].value, u)
    ensures e in p
    decreases Index(ri, v)
  {
    if e == v {
      assert p[|p| - 1] == e;
    } else {
      var d := idom[v].value;
      assert Link(g, entry, ri, d, v);
      assert OnPaths(g, entry, ri, m, d, v);
      var k := FirstIndex(p, d);
      PathPrefix(g, p, entry, v, k);
      RetreatsPrefix(ri, p, k + 1);
      ChainOnPaths(g, entry, ri, idom, m, e, d, p[..k + 1]);
    }
  }

  /** In pass `k + 1` of the iteration, with the positions below `i` done. */
  ghost predicate Pass(g: Graph, entry: nat, rpo: seq<nat>, ri: seq<Option<nat>>, idom: seq<Option<nat>>, k: nat, i: nat) {
    && Tree(g, entry, ri, idom)
    && 1 <= i <= |rpo|
    && (forall v: nat :: v < |g| ==> (idom[v].Some? <==> ri[v].Some? && (k >= 1 || ri[v].value < i)))
    && (forall v: nat :: v != entry && Processed(idom, v) ==>
          OnPaths(g, entry, ri, if Index(ri, v) < i then k + 1 else k, idom[v].value, v))
  }

  ghost predicate PredsOf(g: Graph, pred: Graph) {
    && |pred| == |g|
    && (forall u: nat, v: nat :: u < |g| && v < |g| ==> (Edge(g, u, v) <==> Edge(pred, v, u)))
    && InRange(pred)
  }

  ghost function ProcessedIn(preds: seq<nat>, idom: seq<Option<nat>>): set<nat> {
    set q: nat | q in preds && Processed(idom, q)
  }

  /** `c` is the meet of the processed predecessors of `b`. */
  ghost predicate NextIdom(g: Graph, entry: nat, pred: Graph, ri: seq<Option<nat>>, idom: seq<Option<nat>>, b: nat, c: nat)
    requires Tree(g, entry, ri, idom) && b < |pred|
  {
    Meet(g, entry, ri, idom, ProcessedIn(pred[b], idom), c)
  }

  lemma ParentProcessed(g: Graph, entry: nat, pred: Graph, rpo: seq<nat>, ri: seq<Option<nat>>, idom: seq<Option<nat>>,
                        k: nat, i: nat) returns (q: nat)
    requires Numbered(g, entry, rpo, ri) && PredsOf(g, pred)
    requires Pass(g, entry, rpo, ri, idom, k, i) && i < |rpo|
    ensures rpo[i] < |pred| && q in ProcessedIn(pred[rpo[i]], idom)
    ensures q < |g| && Edge(g, q, rpo[i]) && ri[q].Some? && ri[q].value < i
  {
    assert Entered(g, rpo, i);
    var j :| 0 <= j < i && Edge(g, rpo[j], rpo[i]);
    q := rpo[j];
    assert ri[rpo[j]] == Some(j);
  }

  lemma MeetDescends(g: Graph, entry: nat, ri: seq<Option<nat>>, idom: seq<Option<nat>>, qs: set<nat>, c: nat, q: nat, b: nat)
    requires Tree(g, entry, ri, idom) && Meet(g, entry, ri, idom, qs, c)
    requires q in qs && Edge(g, q, b) && b < |g|
    requires ri[b].Some? && Index(ri, q) < Index(ri, b)
    ensures c < |g| && ri[c].Some? && Index(ri, c) < Index(ri, b)
    ensures Descends(g, ri, c, b)
  {
    assert Processed(idom, q) && InChain(g, entry, ri, idom, c, q);
    ChainIndex(g, entry, ri, idom, c, q);
    ChainDescends(g, entry, ri, idom, c, q);
    ProcessedNumbered(g, entry, ri, idom, c);
    EdgeDescends(g, ri, q, b);
    DescendsTrans(g, ri, c, q, b);
  }

  lemma EdgeDescends(g: Graph, ri: seq<Option<nat>>, q: nat, b: nat)
    requires Edge(g, q, b) && b < |g| == |ri|
    requires ri[b].Some? && Index(ri, q) < Index(ri, b)
    ensures Descends(g, ri, q, b)
  {
    assert PathFromTo(g, [q, b], q, b);
    assert StaysAbove(ri, [q, b], Index(ri, q));
  }

  lemma NextKeepsDominators(g: Graph, entry: nat, pred: Graph, rpo: seq<nat>, ri: seq<Option<nat>>, idom: seq<Option<nat>>,
                            k: nat, i: nat, c: nat)
    requires Numbered(g, entry, rpo, ri) && PredsOf(g, pred)
    requires Pass(g, entry, rpo, ri, idom, k, i) && i < |rpo|
    requires NextIdom(g, entry, pred, ri, idom, rpo[i], c)
    ensures KeepsDominators(g, entry, c, rpo[i])
  {
    var b := rpo[i];
    var parent := ParentProcessed(g, entry, pred, rpo, ri, idom, k, i);
    forall e: nat | e != b && Dominates(g, entry, e, b)
      ensures Dominates(g, entry, e, c)
    {
      forall q | q in ProcessedIn(pred[b], idom)
        ensures Processed(idom, q) && Dominates(g, entry, e, q) && InChain(g, entry, ri, idom, e, q)
      {
        DominatesPred(g, entry, e, q, b);
        DominatorsInChain(g, entry, ri, idom, e, q);
      }
      assert Common(g, entry, ri, idom, ProcessedIn(pred[b], idom), e);
      ChainIndex(g, entry, ri, idom, e, c);
      DominatorAbove(g, entry, ri, idom, e, c, parent);
    }
  }

  lemma DominatesPred(g: Graph, entry: nat, e: nat, q: nat, b: nat)
    requires Edge(g, q, b) && b < |g| && e != b && Dominates(g, entry, e, b)
    ensures Dominates(g, entry, e, q)
  {
    forall p | PathFromTo(g, p, entry, q)
      ensures e in p
    {
      PathSnoc(g, p, entry, q, b);
      assert e in p + [b];
    }
  }

  lemma NumberedAt(g: Graph, entry: nat, rpo: seq<nat>, ri: seq<Option<nat>>, i: nat)
    requires Numbered(g, entry, rpo, ri) && i < |rpo|
    ensures rpo[i] < |g| == |ri| && ri[rpo[i]] == Some(i)
    ensures ri[entry] == Some(0) && (i > 0 ==> rpo[i] != entry)
  {
    assert ri[rpo[0]] == Some(0);
  }

  /** The last step of a path to the node at position `i`. */
  lemma LastStep(g: Graph, entry: nat, pred: Graph, ri: seq<Option<nat>>, p: seq<nat>, b: nat) returns (q: nat)
    requires PredsOf(g, pred) && entry < |g| == |ri| && b < |g| && b != entry
    requires PathFromTo(g, p, entry, b)
    ensures |p| >= 2 && q == p[|p| - 2] && q < |g| && q in pred[b]
    ensures PathFromTo(g, p[..|p| - 1], entry, q)
    ensures Retreats(ri, p) == Retreats(ri, p[..|p| - 1]) + if Index(ri, q) < Index(ri, b) then 0 else 1
  {
    var n := |p| - 1;
    assert n > 0;
    q := p[n - 1];
    PathPrefix(g, p, entry, b, n - 1);
    assert Edge(g, q, p[n - 1 + 1]);
  }

  lemma PassOnPaths(g: Graph, entry: nat, rpo: seq<nat>, ri: seq<Option<nat>>, idom: seq<Option<nat>>, k: nat, i: nat,
                    q: nat, m: nat)
    requires Pass(g, entry, rpo, ri, idom, k, i)
    requires m == if Index(ri, q) < i then k + 1 else k
    ensures forall u: nat :: u != entry && Processed(idom, u) && Index(ri, u) <= Index(ri, q) ==>
              OnPaths(g, entry, ri, m, idom[u].value, u)
  {
    hide Tree;
    forall u: nat | u != entry && Processed(idom, u) && Index(ri, u) <= Index(ri, q)
      ensures OnPaths(g, entry, ri, m, idom[u].value, u)
    {
      var m' := if Index(ri, u) < i then k + 1 else k;
      assert OnPaths(g, entry, ri, m', idom[u].value, u);
    }
  }

  lemma NextOnPaths(g: Graph, entry: nat, pred: Graph, rpo: seq<nat>, ri: seq<Option<nat>>, idom: seq<Option<nat>>,
                    k: nat, i: nat, c: nat)
    requires Numbered(g, entry, rpo, ri) && PredsOf(g, pred)
    requires Pass(g, entry, rpo, ri, idom, k, i) && i < |rpo|
    requires NextIdom(g, entry, pred, ri, idom, rpo[i], c)
    ensures OnPaths(g, entry, ri, k + 1, c, rpo[i])
  {
    var b := rpo[i];
    NumberedAt(g, entry, rpo, ri, i);
    forall p | PathFromTo(g, p, entry, b) && Retreats(ri, p) < k + 1
      ensures c in p
    {
      var q := LastStep(g, entry, pred, ri, p, b);
      NextOnPath(g, entry, pred, rpo, ri, idom, k, i, c, p[..|p| - 1], q);
    }
  }

  lemma NextOnPath(g: Graph, entry: nat, pred: Graph, rpo: seq<nat>, ri: seq<Option<nat>>, idom: seq<Option<nat>>,
                   k: nat, i: nat, c: nat, p: seq<nat>, q: nat)
    requires Numbered(g, entry, rpo, ri) && PredsOf(g, pred)
    requires Pass(g, entry, rpo, ri, idom, k, i) && i < |rpo|
    requires NextIdom(g, entry, pred, ri, idom, rpo[i], c)
    requires q < |g| && q in pred[rpo[i]] && PathFromTo(g, p, entry, q)
    requires Retreats(ri, p) + (if Index(ri, q) < i then 0 else 1) < k + 1
    ensures c in p
  {
    var m := if Index(ri, q) < i then k + 1 else k;
    assert Reach(g, entry, q);
    assert Processed(idom, q);
    assert q in ProcessedIn(pred[rpo[i]], idom);
    hide Numbered, Pass;
    assert InChain(g, entry, ri, idom, c, q);
    PassOnPaths(g, entry, rpo, ri, idom, k, i, q, m);
    ChainOnPaths(g, entry, ri, idom, m, c, q, p);
  }

  lemma TreeUpdate(g: Graph, entry: nat, ri: seq<Option<nat>>, idom: seq<Option<nat>>, b: nat, c: nat)
    requires Tree(g, entry, ri, idom) && b != entry && b < |g|
    requires Link(g, entry, ri, c, b) && Processed(idom, c)
    ensures Tree(g, entry, ri, idom[b := Some(c)])
  {
  }

  lemma NextPass(g: Graph, entry: nat, pred: Graph, rpo: seq<nat>, ri: seq<Option<nat>>, idom: seq<Option<nat>>,
                 k: nat, i: nat, c: nat)
    requires Numbered(g, entry, rpo, ri) && PredsOf(g, pred)
    requires Pass(g, entry, rpo, ri, idom, k, i) && i < |rpo|
    requires NextIdom(g, entry, pred, ri, idom, rpo[i], c)
    ensures rpo[i] < |idom| && Pass(g, entry, rpo, ri, idom[rpo[i] := Some(c)], k, i + 1)
  {
    var b := rpo[i];
    NumberedAt(g, entry, rpo, ri, i);
    var q := ParentProcessed(g, entry, pred, rpo, ri, idom, k, i);
    MeetDescends(g, entry, ri, idom, ProcessedIn(pred[b], idom), c, q, b);
    NextKeepsDominators(g, entry, pred, rpo, ri, idom, k, i, c);
    NextOnPaths(g, entry, pred, rpo, ri, idom, k, i, c);
    assert Link(g, entry, ri, c, b);
    assert Processed(idom, c);
    TreeUpdate(g, entry, ri, idom, b, c);
    NumberedInjective(g, entry, rpo, ri);
    PassUpdate(g, entry, rpo, ri, idom, k, i, b, c);
  }

  lemma PassUpdate(g: Graph, entry: nat, rpo: seq<nat>, ri: seq<Option<nat>>, idom: seq<Option<nat>>,
                   k: nat, i: nat, b: nat, c: nat)
    requires Pass(g, entry, rpo, ri, idom, k, i) && i < |rpo| && Injective(ri)
    requires b < |g| && b != entry && ri[b] == Some(i)
    requires Tree(g, entry, ri, idom[b := Some(c)])
    requires OnPaths(g, entry, ri, k + 1, c, b)
    ensures Pass(g, entry, rpo, ri, idom[b := Some(c)], k, i + 1)
  {
    assert |idom| == |ri| == |g|;
    hide Tree, OnPaths;
    var idom' := idom[b := Some(c)];
    forall v: nat | v < |g|
      ensures idom'[v].Some? <==> ri[v].Some? && (k >= 1 || ri[v].value < i + 1)
    {
    }
    forall v: nat | v != entry && Processed(idom', v)
      ensures OnPaths(g, entry, ri, if Index(ri, v) < i + 1 then k + 1 else k, idom'[v].value, v)
    {
      if v != b {
        assert Processed(idom, v);
        assert Index(ri, v) != i;
      }
    }
  }

  lemma NumberedInjective(g: Graph, entry: nat, rpo: seq<nat>, ri: seq<Option<nat>>)
    requires Numbered(g, entry, rpo, ri)
    ensures Injective(ri)
  {
    forall v: nat | v < |ri| && ri[v].Some?
      ensures ri[v].value < |rpo| && rpo[ri[v].value] == v
    {
      assert v in rpo;
      var i :| 0 <= i < |rpo| && rpo[i] == v;
    }
  }

  // ── Exactness ────────────────────────────────────────────────────────────

  /** `d` is the immediate dominator of `v`: the proper dominator of `v` that
      all proper dominators of `v` dominate. */
  ghost predicate Immediate(g: Graph, entry: nat, d: nat, v: nat) {
    d != v && Dominates(g, entry, d, v) && KeepsDominators(g, entry, d, v)
  }

  lemma LateDominates(g: Graph, entry: nat, ri: seq<Option<nat>>, k: nat, d: nat, v: nat)
    requires k >= |g| && OnPaths(g, entry, ri, k, d, v)
    ensures Dominates(g, entry, d, v)
  {
    forall p | PathFromTo(g, p, entry, v)
      ensures d in p
    {
      var q := SimplePath(g, p, entry, v);
      forall x | x in q
        ensures x < |g|
      {
      }
      NoDupBound(q, |g|);
      RetreatsLength(ri, q);
    }
  }

  lemma ImmediateUnique(g: Graph, entry: nat, ri: seq<Option<nat>>, idom: seq<Option<nat>>, c: nat, d: nat, v: nat)
    requires Tree(g, entry, ri, idom) && Processed(idom, c) && Processed(idom, d) && Injective(ri)
    requires Immediate(g, entry, c, v) && Immediate(g, entry, d, v)
    ensures c == d
  {
    assert Dominates(g, entry, c, d) && Dominates(g, entry, d, c);
    DominatorsInChain(g, entry, ri, idom, c, d);
    DominatorsInChain(g, entry, ri, idom, d, c);
    ChainIndex(g, entry, ri, idom, c, d);
    ChainIndex(g, entry, ri, idom, d, c);
  }

  /** After `|g|` passes every assignment repeats the value it replaces. */
  lemma LatePassStable(g: Graph, entry: nat, pred: Graph, rpo: seq<nat>, ri: seq<Option<nat>>, idom: seq<Option<nat>>,
                       k: nat, i: nat, c: nat)
    requires Numbered(g, entry, rpo, ri) && PredsOf(g, pred)
    requires Pass(g, entry, rpo, ri, idom, k, i) && i < |rpo|
    requires NextIdom(g, entry, pred, ri, idom, rpo[i], c)
    requires k >= |g|
    ensures rpo[i] < |idom| && idom[rpo[i]] == Some(c)
  {
    var b := rpo[i];
    NumberedAt(g, entry, rpo, ri, i);
    NumberedInjective(g, entry, rpo, ri);
    NextOnPaths(g, entry, pred, rpo, ri, idom, k, i, c);
    NextKeepsDominators(g, entry, pred, rpo, ri, idom, k, i, c);
    var q := ParentProcessed(g, entry, pred, rpo, ri, idom, k, i);
    MeetDescends(g, entry, ri, idom, ProcessedIn(pred[b], idom), c, q, b);
    assert idom[b].Some?;
    var d := idom[b].value;
    assert Link(g, entry, ri, d, b);
    assert Processed(idom, b) && Processed(idom, c) && Processed(idom, d);
    assert OnPaths(g, entry, ri, k, d, b);
    LateDominates(g, entry, ri, k, d, b);
    LateDominates(g, entry, ri, k + 1, c, b);
    ImmediateUnique(g, entry, ri, idom, c, d, b);
  }

  /** No assignment changes anything: every link is the meet of the
      predecessors of its source. */
  ghost predicate Stable(g: Graph, entry: nat, pred: Graph, rpo: seq<nat>, ri: seq<Option<nat>>, idom: seq<Option<nat>>, i: nat)
    requires Tree(g, entry, ri, idom)
  {
    forall j :: 1 <= j < i && j < |rpo| ==>
      rpo[j] < |pred| && Processed(idom, rpo[j]) && NextIdom(g, entry, pred, ri, idom, rpo[j], idom[rpo[j]].value)
  }

  lemma {:induction false} StableChainDominates(g: Graph, entry: nat, pred: Graph, rpo: seq<nat>, ri: seq<Option<nat>>,
                                                idom: seq<Option<nat>>, e: nat, v: nat, p: seq<nat>)
    requires Numbered(g, entry, rpo, ri) && PredsOf(g, pred)
    requires Tree(g, entry, ri, idom) && Stable(g, entry, pred, rpo, ri, idom, |rpo|)
    requires forall u: nat :: u < |g| ==> (idom[u].Some? <==> ri[u].Some?)
    requires v < |g| && ri[v].Some? && InChain(g, entry, ri, idom, e, v)
    requires PathFromTo(g, p, entry, v)
    ensures e in p
    decreases |p|
  {
    if e == v {
      assert p[|p| - 1] == e;
    } else {
      var q := LastStep(g, entry, pred, ri, p, v);
      assert Reach(g, entry, q);
      var d := idom[v].value;
      assert v in rpo;
      var j :| 0 <= j < |rpo| && rpo[j] == v;
      assert NextIdom(g, entry, pred, ri, idom, rpo[j], d);
      assert q in ProcessedIn(pred[v], idom);
      ChainTrans(g, entry, ri, idom, e, d, q);
      StableChainDominates(g, entry, pred, rpo, ri, idom, e, q, p[..|p| - 1]);
    }
  }

  /** What the finished table says: exactly the immediate dominators. */
  ghost predicate IsIdom(g: Graph, entry: nat, ri: seq<Option<nat>>, idom: seq<Option<nat>>) {
    && |idom| == |ri| == |g|
    && (forall v: nat :: v < |g| ==> (idom[v].Some? <==> v != entry && ri[v].Some?))
    && (forall v: nat :: v < |g| && idom[v].Some? ==>
          && Immediate(g, entry, idom[v].value, v)
          && idom[v].value < |g| && ri[idom[v].value].Some?
          && ri[idom[v].value].value < ri[v].value)
  }

  lemma StableIsIdom(g: Graph, entry: nat, pred: Graph, rpo: seq<nat>, ri: seq<Option<nat>>, idom: seq<Option<nat>>, k: nat)
    requires Numbered(g, entry, rpo, ri) && PredsOf(g, pred)
    requires Pass(g, entry, rpo, ri, idom, k, 1) && k >= 1
    requires Stable(g, entry, pred, rpo, ri, idom, |rpo|)
    ensures IsIdom(g, entry, ri, idom[entry := None])
  {
    assert forall u: nat :: u < |g| ==> (idom[u].Some? <==> ri[u].Some?);
    forall v: nat | v < |g| && idom[v].Some? && v != entry
      ensures Immediate(g, entry, idom[v].value, v)
      ensures idom[v].value < |g| && ri[idom[v].value].Some? && ri[idom[v].value].value < ri[v].value
    {
      var d := idom[v].value;
      assert Link(g, entry, ri, d, v);
      assert InChain(g, entry, ri, idom, d, v);
      forall p | PathFromTo(g, p, entry, v)
        ensures d in p
      {
        StableChainDominates(g, entry, pred, rpo, ri, idom, d, v, p);
      }
    }
  }

  // ── The iteration ────────────────────────────────────────────────────────

  /** The meet of the processed predecessors, folded in list order. */
  method MeetOfPreds(preds: seq<nat>, idom: array<Option<nat>>, rpoIndex: seq<Option<nat>>, ghost g: Graph, ghost entry: nat)
    returns (r: Option<nat>)
    requires Tree(g, entry, rpoIndex, idom[..]) && Injective(rpoIndex)
    requires forall q :: q in preds ==> q < idom.Length
    ensures r.None? ==> ProcessedIn(preds, idom[..]) == {}
    ensures r.Some? ==> Meet(g, entry, rpoIndex, idom[..], ProcessedIn(preds, idom[..]), r.value)
  {
    hide Tree, Injective, Meet;
    r := None;
    ghost var done: set<nat> := {};
    for j := 0 to |preds|
      invariant done == ProcessedIn(preds[..j], idom[..])
      invariant r.None? ==> done == {}
      invariant r.Some? ==> Processed(idom[..], r.value) && Meet(g, entry, rpoIndex, idom[..], done, r.value)
    {
      var q := preds[j];
      assert q in preds;
      assert preds[..j + 1] == preds[..j] + [q];
      if idom[q].Some? {
        assert Processed(idom[..], q);
        if r.None? {
          MeetSingle(g, entry, rpoIndex, idom[..], q);
          assert {q} == done + {q};
          r := Some(q);
        } else {
          var c := Intersect(r.value, q, idom[..], rpoIndex, g, entry);
          MeetMore(g, entry, rpoIndex, idom[..], done, r.value, q, c);
          MeetProcessed(g, entry, rpoIndex, idom[..], {r.value, q}, c);
          r := Some(c);
        }
        done := done + {q};
      }
    }
    assert preds[..|preds|] == preds;
  }

  lemma MeetProcessed(g: Graph, entry: nat, ri: seq<Option<nat>>, idom: seq<Option<nat>>, qs: set<nat>, c: nat)
    requires Tree(g, entry, ri, idom) && Meet(g, entry, ri, idom, qs, c)
    ensures Processed(idom, c)
  {
  }

  lemma FirstPass(g: Graph, entry: nat, rpo: seq<nat>, ri: seq<Option<nat>>, idom: seq<Option<nat>>)
    requires Numbered(g, entry, rpo, ri)
    requires |idom| == |g| && forall v: nat :: v < |g| ==> idom[v] == if v == entry then Some(entry) else None
    ensures Pass(g, entry, rpo, ri, idom, 0, 1)
  {
    NumberedAt(g, entry, rpo, ri, 0);
    NumberedInjective(g, entry, rpo, ri);
  }

  lemma NumberRange(g: Graph, entry: nat, rpo: seq<nat>, ri: seq<Option<nat>>)
    requires Numbered(g, entry, rpo, ri)
    ensures |ri| == |g| && |rpo| > 0
    ensures forall v: nat :: v < |g| && ri[v].Some? ==> ri[v].value < |rpo|
    ensures forall v: nat :: v < |g| && v != entry && ri[v].Some? ==> ri[v].value >= 1
  {
    NumberedAt(g, entry, rpo, ri, 0);
    forall v: nat | v < |g| && ri[v].Some?
      ensures ri[v].value < |rpo| && (v != entry ==> ri[v].value >= 1)
    {
      assert v in rpo;
      var i :| 0 <= i < |rpo| && rpo[i] == v;
    }
  }

  /** When all nodes have been visited the next pass begins. */
  lemma EndPass(g: Graph, entry: nat, rpo: seq<nat>, ri: seq<Option<nat>>, idom: seq<Option<nat>>, k: nat)
    requires Numbered(g, entry, rpo, ri)
    requires Pass(g, entry, rpo, ri, idom, k, |rpo|)
    ensures Pass(g, entry, rpo, ri, idom, k + 1, 1)
  {
    NumberRange(g, entry, rpo, ri);
    assert |idom| == |g|;
    hide Tree, OnPaths, Numbered;
    forall v: nat | v != entry && Processed(idom, v)
      ensures Index(ri, v) >= 1 && OnPaths(g, entry, ri, k + 1, idom[v].value, v)
    {
    }
  }

  lemma PassFacts(g: Graph, entry: nat, pred: Graph, rpo: seq<nat>, ri: seq<Option<nat>>, idom: seq<Option<nat>>, k: nat, i: nat)
    requires Numbered(g, entry, rpo, ri) && PredsOf(g, pred)
    requires Pass(g, entry, rpo, ri, idom, k, i) && i < |rpo|
    ensures rpo[i] < |pred| == |idom|
    ensures Tree(g, entry, ri, idom) && Injective(ri)
    ensures forall q :: q in pred[rpo[i]] ==> q < |idom|
    ensures ProcessedIn(pred[rpo[i]], idom) != {}
  {
    NumberedInjective(g, entry, rpo, ri);
    var q := ParentProcessed(g, entry, pred, rpo, ri, idom, k, i);
  }

  lemma PassTree(g: Graph, entry: nat, pred: Graph, rpo: seq<nat>, ri: seq<Option<nat>>, idom: seq<Option<nat>>, k: nat, i: nat)
    requires Pass(g, entry, rpo, ri, idom, k, i)
    ensures Tree(g, entry, ri, idom)
    ensures Stable(g, entry, pred, rpo, ri, idom, 1)
  {
  }

  lemma StableStep(g: Graph, entry: nat, pred: Graph, rpo: seq<nat>, ri: seq<Option<nat>>, idom: seq<Option<nat>>, i: nat, c: nat)
    requires Tree(g, entry, ri, idom) && Stable(g, entry, pred, rpo, ri, idom, i)
    requires i < |rpo| && rpo[i] < |pred| == |idom| && NextIdom(g, entry, pred, ri, idom, rpo[i], c)
    requires idom[rpo[i]] == Some(c)
    ensures Stable(g, entry, pred, rpo, ri, idom, i + 1)
  {
    hide Tree, NextIdom;
  }

  /** `rpo_index`: the position of every listed node. */
  method NumberRpo(n: nat, entry: nat, rpo: seq<nat>, ghost g: Graph) returns (rpoIndex: seq<Option<nat>>)
    requires InRange(g) && entry < |g| == n && IsRpo(g, entry, rpo)
    ensures Numbered(g, entry, rpo, rpoIndex)
  {
    RpoInRange(g, entry, rpo);
    assert NoDup(rpo);
    hide IsRpo, Numbered, InRange;
    var index := new Option<nat>[n](_ => None);
    for i := 0 to |rpo|
      invariant forall j :: 0 <= j < i ==> index[rpo[j]] == Some(j)
      invariant forall v: nat :: v < n && index[v].Some? ==> index[v].value < i && rpo[index[v].value] == v
    {
      index[rpo[i]] := Some(i);
    }
    rpoIndex := index[..];
    NumberedIntro(g, entry, rpo, rpoIndex);
  }

  lemma NumberedIntro(g: Graph, entry: nat, rpo: seq<nat>, ri: seq<Option<nat>>)
    requires InRange(g) && entry < |g| == |ri| && IsRpo(g, entry, rpo)
    requires forall j :: 0 <= j < |rpo| ==> rpo[j] < |g| && ri[rpo[j]] == Some(j)
    requires forall v: nat :: v < |g| && ri[v].Some? ==> ri[v].value < |rpo| && rpo[ri[v].value] == v
    ensures Numbered(g, entry, rpo, ri)
  {
  }

  lemma RpoInRange(g: Graph, entry: nat, rpo: seq<nat>)
    requires IsRpo(g, entry, rpo)
    ensures forall i :: 0 <= i < |rpo| ==> rpo[i] < |g|
  {
    forall i | 0 <= i < |rpo|
      ensures rpo[i] < |g|
    {
      assert Reach(g, entry, rpo[i]);
    }
  }

  method BuildFromRpo(predecessors: Graph, rpo: seq<nat>, entry: nat, n: nat, ghost g: Graph) returns (tree: DomTree)
    requires InRange(g) && entry < |g| == n && PredsOf(g, predecessors)
    requires IsRpo(g, entry, rpo)
    ensures Numbered(g, entry, rpo, tree.rpoIndex)
    ensures IsIdom(g, entry, tree.rpoIndex, tree.idom)
  {
    hide Numbered, Pass, Stable, Tree, IsRpo, IsIdom, Injective, PredsOf, Meet;
    var rpoIndex := NumberRpo(n, entry, rpo, g);
    var idom := new Option<nat>[n](_ => None);
    idom[entry] := Some(entry);
    FirstPass(g, entry, rpo, rpoIndex, idom[..]);
    PassTree(g, entry, predecessors, rpo, rpoIndex, idom[..], 0, 1);

    var changed := true;
    ghost var k: nat := 0;
    while changed
      invariant Pass(g, entry, rpo, rpoIndex, idom[..], k, 1)
      invariant Tree(g, entry, rpoIndex, idom[..])
      invariant k >= n + 1 ==> !changed
      invariant !changed ==> k >= 1 && Stable(g, entry, predecessors, rpo, rpoIndex, idom[..], |rpo|)
      decreases n + 1 - k
    {
      changed := false;
      PassTree(g, entry, predecessors, rpo, rpoIndex, idom[..], k, 1);
      for i := 1 to |rpo|
        invariant Pass(g, entry, rpo, rpoIndex, idom[..], k, i)
        invariant Tree(g, entry, rpoIndex, idom[..])
        invariant k >= n ==> !changed
        invariant !changed ==> Stable(g, entry, predecessors, rpo, rpoIndex, idom[..], i)
      {
        var b := rpo[i];
        PassFacts(g, entry, predecessors, rpo, rpoIndex, idom[..], k, i);
        var newIdom := MeetOfPreds(predecessors[b], idom, rpoIndex, g, entry);
        ghost var c := newIdom.value;
        NextPass(g, entry, predecessors, rpo, rpoIndex, idom[..], k, i, c);
        if k >= n {
          LatePassStable(g, entry, predecessors, rpo, rpoIndex, idom[..], k, i, c);
        }
        if idom[b] != newIdom {
          ghost var before := idom[..];
          idom[b] := newIdom;
          assert idom[..] == before[b := Some(c)];
          PassTree(g, entry, predecessors, rpo, rpoIndex, idom[..], k, i + 1);
          changed := true;
        } else {
          assert idom[..] == idom[..][b := Some(c)];
          if !changed {
            StableStep(g, entry, predecessors, rpo, rpoIndex, idom[..], i, c);
          }
        }
      }
      EndPass(g, entry, rpo, rpoIndex, idom[..], k);
      k := k + 1;
    }

    StableIsIdom(g, entry, predecessors, rpo, rpoIndex, idom[..], k);
    ghost var before := idom[..];
    idom[entry] := None;
    assert idom[..] == before[entry := None];
    tree := DomTree(idom[..], rpoIndex);
  }
}
