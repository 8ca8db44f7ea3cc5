/** Natural loops (`detect_natural_loops`) and their shape. */
module Loops {
  import opened Graphs
  import opened DomTrees
  import opened CfgTypes
  import opened Rooted

  /** An edge from a reachable block to a dominator of it. */
  ghost predicate BackEdge(g: Graph, roots: seq<nat>, u: nat, h: nat) {
    Edge(g, u, h) && RootReach(g, roots, u) && RootDominates(g, roots, h, u)
  }

  ghost predicate IsHeader(g: Graph, roots: seq<nat>, h: nat) {
    h < |g| && exists u: nat :: BackEdge(g, roots, u, h)
  }

  ghost predicate AvoidingPath(g: Graph, h: nat, p: seq<nat>, x: nat, u: nat) {
    PathFromTo(g, p, x, u) && h !in p
  }

  /** `x` is the header `h` or reaches the source of a back edge to `h` without
      passing `h`. */
  ghost predicate InLoop(g: Graph, roots: seq<nat>, h: nat, x: nat) {
    x == h || exists p, u :: BackEdge(g, roots, u, h) && AvoidingPath(g, h, p, x, u)
  }

  ghost predicate IsLoop(g: Graph, roots: seq<nat>, l: NaturalLoop) {
    && IsHeader(g, roots, l.header)
    && forall x: nat {:trigger x in l.body} :: x in l.body <==> x < |g| && InLoop(g, roots, l.header, x)
  }

  /** The loops of a graph: one for every header, in ascending order. */
  ghost predicate AreLoops(g: Graph, roots: seq<nat>, loops: seq<NaturalLoop>) {
    && (forall i :: 0 <= i < |loops| ==> IsLoop(g, roots, loops[i]))
    && (forall i, j :: 0 <= i < j < |loops| ==> loops[i].header < loops[j].header)
    && (forall h: nat :: IsHeader(g, roots, h) ==> exists i :: 0 <= i < |loops| && loops[i].header == h)
  }

  // ── Detection ────────────────────────────────────────────────────────────

  ghost predicate AreSources(g: Graph, roots: seq<nat>, h: nat, sources: seq<nat>) {
    forall u: nat :: u in sources <==> BackEdge(g, roots, u, h)
  }

  ghost predicate Collected(g: Graph, roots: seq<nat>, h: nat, x: nat, sources: seq<nat>) {
    x == h || exists p, u :: u in sources && AvoidingPath(g, h, p, x, u)
  }

  lemma CollectedPred(g: Graph, roots: seq<nat>, h: nat, q: nat, x: nat, sources: seq<nat>)
    requires Collected(g, roots, h, x, sources) && x != h && Edge(g, q, x)
    ensures Collected(g, roots, h, q, sources)
  {
    if q != h {
      var p, u :| u in sources && AvoidingPath(g, h, p, x, u);
      PathCons(g, p, q, x, u);
      assert AvoidingPath(g, h, [q] + p, q, u);
    }
  }

  /** A body closed under predecessors other than those of the header contains
      every block on an avoiding path to one of its blocks. */
  lemma {:induction false} ClosedBody(g: Graph, pred: Graph, h: nat, body: set<nat>, p: seq<nat>, x: nat, u: nat)
    requires PredsOf(g, pred)
    requires forall v, q :: v in body && v != h && v < |pred| && q in pred[v] ==> q in body
    requires AvoidingPath(g, h, p, x, u) && u in body
    ensures x in body
    decreases |p|
  {
    if |p| > 1 {
      assert Edge(g, p[0], p[0 + 1]);
      PathSuffix(g, p, x, u, 1);
      assert AvoidingPath(g, h, p[1..], p[1], u);
      ClosedBody(g, pred, h, body, p[1..], p[1], u);
      assert Edge(pred, p[1], x);
    }
  }

  /** The state of the reverse walk: the blocks found so far reach a source
      without passing the header, and whatever precedes them is found or
      pending. */
  ghost predicate Walking(g: Graph, pred: Graph, roots: seq<nat>, h: nat, sources: seq<nat>, body: set<nat>, stack: seq<nat>) {
    && h in body
    && (forall x :: x in body || x in stack ==> x < |g| && Collected(g, roots, h, x, sources))
    && (forall v, q :: v in body && v != h && v < |pred| && q in pred[v] ==> q in body || q in stack)
    && (forall u :: u in sources ==> u in body || u in stack)
  }

  lemma WalkStart(g: Graph, pred: Graph, roots: seq<nat>, h: nat, sources: seq<nat>)
    requires h < |g| && forall u :: u in sources ==> u < |g|
    ensures Walking(g, pred, roots, h, sources, {h}, sources)
  {
    forall u: nat | u in sources
      ensures Collected(g, roots, h, u, sources)
    {
      if u != h {
        assert AvoidingPath(g, h, [u], u, u);
      }
    }
  }

  lemma WalkTop(g: Graph, pred: Graph, roots: seq<nat>, h: nat, sources: seq<nat>, body: set<nat>, stack: seq<nat>, v: nat)
    requires Walking(g, pred, roots, h, sources, body, stack + [v])
    ensures v < |g|
  {
    assert v in stack + [v];
  }

  lemma WalkDrop(g: Graph, pred: Graph, roots: seq<nat>, h: nat, sources: seq<nat>, body: set<nat>, stack: seq<nat>, v: nat)
    requires Walking(g, pred, roots, h, sources, body, stack + [v]) && v in body
    ensures Walking(g, pred, roots, h, sources, body, stack)
  {
    hide Collected;
    assert forall x :: x in stack ==> x in stack + [v];
    assert forall x :: x in stack + [v] ==> x in stack || x == v;
  }

  lemma WalkStep(g: Graph, pred: Graph, roots: seq<nat>, h: nat, sources: seq<nat>, body: set<nat>, rest: seq<nat>, v: nat,
                 stack: seq<nat>)
    requires PredsOf(g, pred) && v < |pred|
    requires Walking(g, pred, roots, h, sources, body, rest + [v]) && v !in body
    requires forall x :: x in rest ==> x in stack
    requires forall x :: x in stack ==> x in rest || x in pred[v]
    requires forall q :: q in pred[v] ==> q in body + {v} || q in stack
    ensures Walking(g, pred, roots, h, sources, body + {v}, stack)
  {
    assert v in rest + [v];
    assert Collected(g, roots, h, v, sources);
    forall x | x in stack
      ensures x < |g| && Collected(g, roots, h, x, sources)
    {
      if x in rest {
        assert x in rest + [v];
      } else {
        EdgeInRange(pred, v, x);
        assert Edge(pred, v, x);
        CollectedPred(g, roots, h, x, v, sources);
      }
    }
  }

  lemma WalkEnd(g: Graph, pred: Graph, roots: seq<nat>, h: nat, sources: seq<nat>, body: set<nat>)
    requires PredsOf(g, pred) && Walking(g, pred, roots, h, sources, body, [])
    ensures forall x: nat :: x in body <==> x < |g| && Collected(g, roots, h, x, sources)
  {
    forall x: nat | x < |g| && Collected(g, roots, h, x, sources)
      ensures x in body
    {
      if x != h {
        var p, u :| u in sources && AvoidingPath(g, h, p, x, u);
        ClosedBody(g, pred, h, body, p, x, u);
      }
    }
  }

  /** Pushes the listed blocks that are not in `body`. */
  method PushPreds(preds: seq<nat>, body: set<nat>, rest: seq<nat>) returns (stack: seq<nat>)
    ensures forall x :: x in rest ==> x in stack
    ensures forall x :: x in stack ==> x in rest || x in preds
    ensures forall q :: q in preds ==> q in body || q in stack
  {
    stack := rest;
    for i := 0 to |preds|
      invariant forall x :: x in rest ==> x in stack
      invariant forall x :: x in stack ==> x in rest || x in preds
      invariant forall j :: 0 <= j < i ==> preds[j] in body || preds[j] in stack
    {
      if preds[i] !in body {
        stack := stack + [preds[i]];
      }
    }
  }

  /** Reverse reach from the back-edge sources, stopping at the header. */
  method LoopBody(predecessors: Graph, header: BlockId, sources: seq<nat>, ghost g: Graph, ghost roots: seq<nat>)
    returns (body: set<nat>)
    requires PredsOf(g, predecessors) && header < |g|
    requires forall u :: u in sources ==> u < |g|
    ensures forall x: nat :: x in body <==> x < |g| && Collected(g, roots, header, x, sources)
  {
    WalkStart(g, predecessors, roots, header, sources);
    assert |predecessors| == |g|;
    hide PredsOf, Walking, Collected;
    body := {header};
    var stack: seq<nat> := sources;
    while stack != []
      invariant Walking(g, predecessors, roots, header, sources, body, stack)
      decreases Below(|g|) - body, |stack|
    {
      var v := stack[|stack| - 1];
      var rest := stack[..|stack| - 1];
      assert stack == rest + [v];
      WalkTop(g, predecessors, roots, header, sources, body, rest, v);
      stack := rest;
      if v !in body {
        stack := PushPreds(predecessors[v], body + {v}, rest);
        WalkStep(g, predecessors, roots, header, sources, body, rest, v, stack);
        body := body + {v};
      } else {
        WalkDrop(g, predecessors, roots, header, sources, body, rest, v);
      }
    }
    WalkEnd(g, predecessors, roots, header, sources, body);
  }

  /** The predecessors of `b` that `b` dominates. */
  method BackEdgeSources(predecessors: Graph, dominators: DomTree, b: BlockId, ghost g: Graph, ghost roots: seq<nat>)
    returns (sources: seq<nat>)
    requires PredsOf(g, predecessors) && InRange(g) && b < |g|
    requires ValidDomTree(dominators, g, roots)
    ensures AreSources(g, roots, b, sources)
    ensures forall u :: u in sources ==> u < |g|
  {
    sources := [];
    for i := 0 to |predecessors[b]|
      invariant forall u: nat :: u in sources <==> u in predecessors[b][..i] && BackEdge(g, roots, u, b)
    {
      var pred := predecessors[b][i];
      assert predecessors[b][..i + 1] == predecessors[b][..i] + [pred];
      assert Edge(predecessors, b, pred);
      var back := IsDominator(dominators, b, pred, g, roots);
      if back {
        sources := sources + [pred];
      }
    }
    assert predecessors[b][..|predecessors[b]|] == predecessors[b];
    forall u: nat
      ensures u in sources <==> BackEdge(g, roots, u, b)
    {
      if BackEdge(g, roots, u, b) {
        assert Edge(predecessors, b, u);
      }
    }
  }

  lemma CollectedIsLoop(g: Graph, roots: seq<nat>, h: nat, sources: seq<nat>, body: set<nat>)
    requires h < |g| && AreSources(g, roots, h, sources) && sources != []
    requires forall x: nat :: x in body <==> x < |g| && Collected(g, roots, h, x, sources)
    ensures IsLoop(g, roots, NaturalLoop(h, body))
  {
    assert BackEdge(g, roots, sources[0], h);
    forall x: nat
      ensures Collected(g, roots, h, x, sources) <==> InLoop(g, roots, h, x)
    {
    }
  }

  /** What the pass over all predecessors collects per header. */
  ghost predicate Headers(g: Graph, roots: seq<nat>, perHeader: map<BlockId, seq<nat>>, n: nat) {
    && (forall h :: h in perHeader ==> h < n && perHeader[h] != [] && AreSources(g, roots, h, perHeader[h]))
    && (forall h :: h in perHeader ==> forall u :: u in perHeader[h] ==> u < |g|)
    && (forall h: nat :: h < n && IsHeader(g, roots, h) ==> h in perHeader)
  }

  lemma HeadersStep(g: Graph, roots: seq<nat>, perHeader: map<BlockId, seq<nat>>, b: nat, sources: seq<nat>)
    requires Headers(g, roots, perHeader, b) && AreSources(g, roots, b, sources)
    requires forall u :: u in sources ==> u < |g|
    ensures Headers(g, roots, if sources != [] then perHeader[b := sources] else perHeader, b + 1)
  {
    if IsHeader(g, roots, b) {
      var u: nat :| BackEdge(g, roots, u, b);
      assert u in sources;
    }
  }

  ghost predicate LoopsBelow(g: Graph, roots: seq<nat>, loops: seq<NaturalLoop>, h: nat) {
    && (forall i :: 0 <= i < |loops| ==> loops[i].header < h && IsLoop(g, roots, loops[i]))
    && (forall i, j :: 0 <= i < j < |loops| ==> loops[i].header < loops[j].header)
    && (forall k: nat :: k < h && IsHeader(g, roots, k) ==> exists i :: 0 <= i < |loops| && loops[i].header == k)
  }

  lemma LoopsStart(g: Graph, roots: seq<nat>)
    ensures LoopsBelow(g, roots, [], 0)
  {
  }

  lemma LoopsStep(g: Graph, roots: seq<nat>, loops: seq<NaturalLoop>, h: nat, l: NaturalLoop)
    requires LoopsBelow(g, roots, loops, h) && IsLoop(g, roots, l) && l.header == h
    ensures LoopsBelow(g, roots, loops + [l], h + 1)
  {
    var all := loops + [l];
    assert all[|loops|].header == h;
    forall k: nat | k < h && IsHeader(g, roots, k)
      ensures exists i :: 0 <= i < |all| && all[i].header == k
    {
      var i :| 0 <= i < |loops| && loops[i].header == k;
      assert all[i].header == k;
    }
  }

  lemma LoopsSkip(g: Graph, roots: seq<nat>, loops: seq<NaturalLoop>, h: nat)
    requires LoopsBelow(g, roots, loops, h) && !IsHeader(g, roots, h)
    ensures LoopsBelow(g, roots, loops, h + 1)
  {
  }

  method DetectNaturalLoops(predecessors: Graph, dominators: DomTree, n: nat, ghost g: Graph, ghost roots: seq<nat>)
    returns (loops: seq<NaturalLoop>)
    requires n == |g| && PredsOf(g, predecessors) && InRange(g)
    requires ValidDomTree(dominators, g, roots)
    ensures AreLoops(g, roots, loops)
  {
    hide PredsOf, InRange, ValidDomTree, AreSources, IsHeader, IsLoop, LoopsBelow, Collected;
    var perHeader: map<BlockId, seq<nat>> := map[];
    for b := 0 to n
      invariant Headers(g, roots, perHeader, b)
    {
      var sources := BackEdgeSources(predecessors, dominators, b, g, roots);
      HeadersStep(g, roots, perHeader, b, sources);
      if sources != [] {
        perHeader := perHeader[b := sources];
      }
    }

    loops := [];
    LoopsStart(g, roots);
    for h := 0 to n
      invariant LoopsBelow(g, roots, loops, h)
    {
      if h in perHeader {
        var sources := perHeader[h];
        var body := LoopBody(predecessors, h, sources, g, roots);
        CollectedIsLoop(g, roots, h, sources, body);
        LoopsStep(g, roots, loops, h, NaturalLoop(h, body));
        loops := loops + [NaturalLoop(h, body)];
      } else {
        LoopsSkip(g, roots, loops, h);
      }
    }
    LoopsDone(g, roots, loops);
  }

  lemma LoopsDone(g: Graph, roots: seq<nat>, loops: seq<NaturalLoop>)
    requires LoopsBelow(g, roots, loops, |g|)
    ensures AreLoops(g, roots, loops)
  {
  }

  // ── Shape ────────────────────────────────────────────────────────────────

  lemma RootPathExtend(g: Graph, roots: seq<nat>, p: seq<nat>, x: nat, q: seq<nat>, u: nat)
    requires RootPath(g, roots, p, x) && PathFromTo(g, q, x, u)
    ensures RootPath(g, roots, p + q[1..], u)
  {
    PathConcat(g, p, q, p[0], x, u);
  }

  /** On reachable blocks the header dominates its whole body. */
  lemma HeaderDominatesBody(g: Graph, roots: seq<nat>, h: nat, x: nat)
    requires InLoop(g, roots, h, x)
    ensures RootDominates(g, roots, h, x)
  {
    if x == h {
      RootDominatesSelf(g, roots, h);
    } else {
      var q, u :| BackEdge(g, roots, u, h) && AvoidingPath(g, h, q, x, u);
      forall p | RootPath(g, roots, p, x)
        ensures h in p
      {
        RootPathExtend(g, roots, p, x, q, u);
        assert h in p + q[1..];
        assert h !in q[1..];
      }
    }
  }

  /** A proper dominator is reached without passing what it dominates. */
  lemma ReachedBefore(g: Graph, roots: seq<nat>, h: nat, k: nat) returns (p: seq<nat>)
    requires h != k && RootReach(g, roots, k) && RootDominates(g, roots, h, k)
    ensures RootPath(g, roots, p, h) && k !in p
  {
    var r :| RootPath(g, roots, r, k);
    var first := FirstIndex(r, k);
    PathPrefix(g, r, r[0], k, first);
    var r' := r[..first + 1];
    assert RootPath(g, roots, r', k);
    var i := FirstIndex(r', h);
    PathPrefix(g, r', r'[0], k, i);
    p := r'[..i + 1];
    assert r'[first] == k;
    assert i != first;
    assert p == r[..first][..i + 1];
  }

  /** Below a dominator `k` of `b`, the path on to `b` need not pass a proper
      dominator `h` of `k`. */
  lemma LeavesDominator(g: Graph, roots: seq<nat>, h: nat, k: nat, b: nat) returns (q: seq<nat>)
    requires h != k && RootReach(g, roots, b) && RootReach(g, roots, k)
    requires RootDominates(g, roots, k, b) && RootDominates(g, roots, h, k)
    ensures PathFromTo(g, q, k, b) && h !in q
  {
    var toH := ReachedBefore(g, roots, h, k);
    var p :| RootPath(g, roots, p, b);
    assert k in p;
    var m := LastIndex(p, k);
    PathSuffix(g, p, p[0], b, m);
    q := p[m..];
    forall j | 0 <= j < |q|
      ensures q[j] != h
    {
      if q[j] == h {
        PathSuffix(g, q, k, b, j);
        var tail := q[j..][1..];
        assert tail == p[m + j + 1..];
        assert k !in tail by {
          assert p[m + 1..][j..] == tail;
          assert k !in p[m + 1..];
          forall i | 0 <= i < |tail|
            ensures tail[i] != k
          {
            assert tail[i] == p[m + 1..][j + i];
          }
        }
        assert k !in toH + tail;
        RootPathExtend(g, roots, toH, h, q[j..], b);
      }
    }
  }

  /** If the header `h` properly dominates `k`, and `k` dominates a reachable
      block of the loop of `h`, then `k` is in that loop. */
  lemma DominatedHeaderInLoop(g: Graph, roots: seq<nat>, h: nat, k: nat, b: nat)
    requires h != k && RootReach(g, roots, b) && RootReach(g, roots, k)
    requires InLoop(g, roots, h, b) && RootDominates(g, roots, k, b) && RootDominates(g, roots, h, k)
    ensures InLoop(g, roots, h, k)
  {
    var r := LeavesDominator(g, roots, h, k, b);
    assert r[|r| - 1] == b;
    var q, u :| BackEdge(g, roots, u, h) && AvoidingPath(g, h, q, b, u);
    PathConcat(g, r, q, k, b, u);
    assert AvoidingPath(g, h, r + q[1..], k, u);
  }

  /** Of two dominators of a reachable block, one dominates the other. */
  lemma DominatorsOrdered(g: Graph, roots: seq<nat>, h: nat, k: nat, b: nat)
    requires RootReach(g, roots, b) && RootDominates(g, roots, h, b) && RootDominates(g, roots, k, b)
    ensures RootDominates(g, roots, h, k) || RootDominates(g, roots, k, h)
  {
    var p :| RootPath(g, roots, p, b);
    var i := LastIndex(p, h);
    var j := LastIndex(p, k);
    if i <= j {
      LaterDominated(g, roots, h, k, b, p, i, j);
    } else {
      LaterDominated(g, roots, k, h, b, p, j, i);
    }
  }

  lemma LaterDominated(g: Graph, roots: seq<nat>, h: nat, k: nat, b: nat, p: seq<nat>, i: nat, j: nat)
    requires RootPath(g, roots, p, b) && RootDominates(g, roots, h, b)
    requires i <= j < |p| && p[i] == h && h !in p[i + 1..] && p[j] == k
    ensures RootDominates(g, roots, h, k)
  {
    PathSuffix(g, p, p[0], b, j);
    forall r | RootPath(g, roots, r, k)
      ensures h in r
    {
      if i < j {
        RootPathExtend(g, roots, r, k, p[j..], b);
        assert h in r + p[j..][1..];
        forall n | 0 <= n < |p[j..][1..]|
          ensures p[j..][1..][n] != h
        {
          assert p[j..][1..][n] == p[i + 1..][j - i + n];
        }
      } else {
        assert r[|r| - 1] == h;
      }
    }
  }

  lemma RootDominatesAntisym(g: Graph, roots: seq<nat>, h: nat, k: nat)
    requires RootReach(g, roots, k) && RootDominates(g, roots, h, k) && RootDominates(g, roots, k, h)
    ensures h == k
  {
    if h != k {
      var p := ReachedBefore(g, roots, h, k);
    }
  }

  lemma RootReachPath(g: Graph, roots: seq<nat>, x: nat, p: seq<nat>, u: nat, j: nat)
    requires RootReach(g, roots, x) && PathFromTo(g, p, x, u) && j < |p|
    ensures RootReach(g, roots, p[j])
  {
    var r :| RootPath(g, roots, r, x);
    PathPrefix(g, p, x, u, j);
    RootPathExtend(g, roots, r, x, p[..j + 1], p[j]);
  }

  lemma DominatorReached(g: Graph, roots: seq<nat>, h: nat, x: nat)
    requires RootReach(g, roots, x) && RootDominates(g, roots, h, x)
    ensures RootReach(g, roots, h)
  {
    var p :| RootPath(g, roots, p, x);
    var i := FirstIndex(p, h);
    PathPrefix(g, p, p[0], x, i);
    assert RootPath(g, roots, p[..i + 1], h);
  }

  /** The loop of a header `k` inside the loop of `h` lies in the loop of `h`. */
  lemma InnerLoop(g: Graph, roots: seq<nat>, h: nat, k: nat, x: nat)
    requires h != k && RootReach(g, roots, k) && RootDominates(g, roots, h, k) && InLoop(g, roots, h, k)
    requires RootReach(g, roots, x) && InLoop(g, roots, k, x)
    ensures InLoop(g, roots, h, x)
  {
    if x != k {
      var p, u :| BackEdge(g, roots, u, k) && AvoidingPath(g, k, p, x, u);
      forall j | 0 <= j < |p|
        ensures p[j] != h
      {
        RootReachPath(g, roots, x, p, u, j);
        PathSuffix(g, p, x, u, j);
        assert AvoidingPath(g, k, p[j..], p[j], u);
        assert InLoop(g, roots, k, p[j]);
        HeaderDominatesBody(g, roots, k, p[j]);
        if p[j] == h {
          RootDominatesAntisym(g, roots, h, k);
        }
      }
      var q, w :| BackEdge(g, roots, w, h) && AvoidingPath(g, h, q, k, w);
      PathSnoc(g, p, x, u, k);
      PathConcat(g, p + [k], q, x, k, w);
      assert AvoidingPath(g, h, p + [k] + q[1..], x, w);
    }
  }

  /** On reachable blocks, two loops with different headers are disjoint or
      one contains the other. */
  lemma LoopsNested(g: Graph, roots: seq<nat>, h: nat, k: nat, b: nat)
    requires h != k && RootReach(g, roots, b) && InLoop(g, roots, h, b) && InLoop(g, roots, k, b)
    ensures (forall x: nat :: RootReach(g, roots, x) && InLoop(g, roots, k, x) ==> InLoop(g, roots, h, x))
         || (forall x: nat :: RootReach(g, roots, x) && InLoop(g, roots, h, x) ==> InLoop(g, roots, k, x))
  {
    HeaderDominatesBody(g, roots, h, b);
    HeaderDominatesBody(g, roots, k, b);
    DominatorReached(g, roots, h, b);
    DominatorReached(g, roots, k, b);
    DominatorsOrdered(g, roots, h, k, b);
    if RootDominates(g, roots, h, k) {
      DominatedHeaderInLoop(g, roots, h, k, b);
      forall x: nat | RootReach(g, roots, x) && InLoop(g, roots, k, x)
        ensures InLoop(g, roots, h, x)
      {
        InnerLoop(g, roots, h, k, x);
      }
    } else {
      DominatedHeaderInLoop(g, roots, k, h, b);
      forall x: nat | RootReach(g, roots, x) && InLoop(g, roots, h, x)
        ensures InLoop(g, roots, k, x)
      {
        InnerLoop(g, roots, k, h, x);
      }
    }
  }

  /** A path that never goes against the numbering ends at a larger number. */
  lemma {:induction false} ForwardPath(g: Graph, t: DomTree, p: seq<nat>)
    requires IsPath(g, p) && |t.rpoIndex| == |g|
    requires forall i :: 0 <= i < |p| ==> t.rpoIndex[p[i]].Some?
    requires forall i :: 0 <= i < |p| - 1 ==> t.rpoIndex[p[i]].value < t.rpoIndex[p[i + 1]].value
    ensures |p| > 1 ==> t.rpoIndex[p[0]].value < t.rpoIndex[p[|p| - 1]].value
    decreases |p|
  {
    if |p| > 1 {
      PathSuffix(g, p, p[0], p[|p| - 1], 1);
      ForwardPath(g, t, p[1..]);
      assert t.rpoIndex[p[0]].value < t.rpoIndex[p[0 + 1]].value;
    }
  }

  /** In a graph that passes the reducibility check, every cycle contains the
      header of a detected loop. */
  lemma CycleHasHeader(g: Graph, roots: seq<nat>, t: DomTree, loops: seq<NaturalLoop>, p: seq<nat>)
    requires ValidDomTree(t, g, roots) && Reducible(t, g, roots) && AreLoops(g, roots, loops)
    requires IsPath(g, p) && |p| > 1 && p[0] == p[|p| - 1] && RootReach(g, roots, p[0])
    ensures exists i, j :: 0 <= i < |p| && 0 <= j < |loops| && loops[j].header == p[i]
  {
    forall i | 0 <= i < |p|
      ensures t.rpoIndex[p[i]].Some?
    {
      RootReachPath(g, roots, p[0], p, p[|p| - 1], i);
    }
    if forall i :: 0 <= i < |p| - 1 ==> t.rpoIndex[p[i]].value < t.rpoIndex[p[i + 1]].value {
      ForwardPath(g, t, p);
    } else {
      var i :| 0 <= i < |p| - 1 && t.rpoIndex[p[i]].value >= t.rpoIndex[p[i + 1]].value;
      assert Edge(g, p[i], p[i + 1]);
      assert BackEdge(g, roots, p[i], p[i + 1]);
      assert IsHeader(g, roots, p[i + 1]);
      var j :| 0 <= j < |loops| && loops[j].header == p[i + 1];
    }
  }
}
