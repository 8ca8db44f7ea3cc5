/** Paths, reachability and dominance in graphs given by adjacency lists over
    block numbers. Every analysis of the control-flow graph is specified here. */
module Graphs {

  datatype Option<+T> = None | Some(value: T)

  datatype Result<+T, +E> = Ok(value: T) | Err(error: E)

  /** `g[u]` lists the targets of the edges leaving `u`, in order and with
      repetition. */
  type Graph = seq<seq<nat>>

  predicate InRange(g: Graph) {
    forall u, i :: 0 <= u < |g| && 0 <= i < |g[u]| ==> g[u][i] < |g|
  }

  predicate Edge(g: Graph, u: nat, v: nat) {
    u < |g| && v in g[u]
  }

  /** `h` holds the edges of `g` reversed, each as often as in `g`. */
  ghost predicate Inverse(g: Graph, h: Graph) {
    && |g| == |h|
    && forall u: nat, v: nat {:trigger multiset(g[u])[v]} {:trigger multiset(h[v])[u]} ::
         u < |g| && v < |g| ==> multiset(g[u])[v] == multiset(h[v])[u]
  }

  ghost predicate NoDup<T>(s: seq<T>) {
    forall i, j :: 0 <= i < j < |s| ==> s[i] != s[j]
  }

  ghost predicate IsPath(g: Graph, p: seq<nat>) {
    && |p| > 0
    && (forall i :: 0 <= i < |p| ==> p[i] < |g|)
    && (forall i :: 0 <= i < |p| - 1 ==> Edge(g, p[i], p[i + 1]))
  }

  ghost predicate PathFromTo(g: Graph, p: seq<nat>, a: nat, b: nat) {
    IsPath(g, p) && p[0] == a && p[|p| - 1] == b
  }

  ghost predicate Reach(g: Graph, a: nat, b: nat) {
    exists p :: PathFromTo(g, p, a, b)
  }

  /** `d` lies on every path from `root` to `v`. */
  ghost predicate Dominates(g: Graph, root: nat, d: nat, v: nat) {
    forall p :: PathFromTo(g, p, root, v) ==> d in p
  }

  lemma InverseEdge(g: Graph, h: Graph, u: nat, v: nat)
    requires Inverse(g, h) && u < |g| && v < |g|
    ensures Edge(g, u, v) <==> Edge(h, v, u)
  {
    assert multiset(g[u])[v] == multiset(h[v])[u];
    assert v in multiset(g[u]) <==> v in g[u];
    assert u in multiset(h[v]) <==> u in h[v];
  }

  lemma PathConcat(g: Graph, p: seq<nat>, q: seq<nat>, a: nat, b: nat, c: nat)
    requires PathFromTo(g, p, a, b) && PathFromTo(g, q, b, c)
    ensures PathFromTo(g, p + q[1..], a, c)
  {
    var r := p + q[1..];
    forall i | 0 <= i < |r| - 1
      ensures Edge(g, r[i], r[i + 1])
    {
      if i < |p| - 1 {
      } else {
        assert r[i] == q[i - |p| + 1] && r[i + 1] == q[i - |p| + 2];
      }
    }
  }

  lemma PathSnoc(g: Graph, p: seq<nat>, a: nat, b: nat, c: nat)
    requires PathFromTo(g, p, a, b) && Edge(g, b, c) && c < |g|
    ensures PathFromTo(g, p + [c], a, c)
  {
    var r := p + [c];
    forall i | 0 <= i < |r| - 1
      ensures Edge(g, r[i], r[i + 1])
    {
      if i < |p| - 1 {
        assert r[i] == p[i] && r[i + 1] == p[i + 1];
      }
    }
  }

  lemma PathCons(g: Graph, p: seq<nat>, a: nat, b: nat, c: nat)
    requires PathFromTo(g, p, b, c) && Edge(g, a, b)
    ensures PathFromTo(g, [a] + p, a, c)
  {
    var r := [a] + p;
    forall i | 0 <= i < |r| - 1
      ensures Edge(g, r[i], r[i + 1])
    {
      if i > 0 {
        assert r[i] == p[i - 1] && r[i + 1] == p[i];
      }
    }
  }

  lemma PathPrefix(g: Graph, p: seq<nat>, a: nat, b: nat, k: nat)
    requires PathFromTo(g, p, a, b) && k < |p|
    ensures PathFromTo(g, p[..k + 1], a, p[k])
  {
    var r := p[..k + 1];
    forall i | 0 <= i < |r| - 1
      ensures Edge(g, r[i], r[i + 1])
    {
      assert r[i] == p[i] && r[i + 1] == p[i + 1];
    }
  }

  lemma PathSuffix(g: Graph, p: seq<nat>, a: nat, b: nat, k: nat)
    requires PathFromTo(g, p, a, b) && k < |p|
    ensures PathFromTo(g, p[k..], p[k], b)
  {
    var r := p[k..];
    forall i | 0 <= i < |r| - 1
      ensures Edge(g, r[i], r[i + 1])
    {
      assert r[i] == p[k + i] && r[i + 1] == p[k + i + 1];
    }
  }

  lemma ReachRefl(g: Graph, a: nat)
    requires a < |g|
    ensures Reach(g, a, a)
  {
    assert PathFromTo(g, [a], a, a);
  }

  lemma ReachEdge(g: Graph, a: nat, b: nat, c: nat)
    requires Reach(g, a, b) && Edge(g, b, c) && c < |g|
    ensures Reach(g, a, c)
  {
    var p :| PathFromTo(g, p, a, b);
    PathSnoc(g, p, a, b, c);
  }

  lemma ReachTrans(g: Graph, a: nat, b: nat, c: nat)
    requires Reach(g, a, b) && Reach(g, b, c)
    ensures Reach(g, a, c)
  {
    var p :| PathFromTo(g, p, a, b);
    var q :| PathFromTo(g, q, b, c);
    PathConcat(g, p, q, a, b, c);
  }

  /** The first index at which `v` occurs. */
  lemma FirstIndex<T>(p: seq<T>, v: T) returns (k: nat)
    requires v in p
    ensures k < |p| && p[k] == v && v !in p[..k]
  {
    k := 0;
    while p[k] != v
      invariant k < |p| && v !in p[..k]
      decreases |p| - k
    {
      k := k + 1;
    }
  }

  /** The last index at which `v` occurs. */
  lemma LastIndex<T>(p: seq<T>, v: T) returns (k: nat)
    requires v in p
    ensures k < |p| && p[k] == v && v !in p[k + 1..]
    ensures forall j :: k < j < |p| ==> p[j] != v
  {
    k := |p| - 1;
    while p[k] != v
      invariant 0 <= k < |p| && v !in p[k + 1..]
      invariant v in p[..k + 1]
      decreases k
    {
      assert p[..k + 1] == p[..k] + [p[k]];
      if k == 0 {
        assert false;
      } else {
        assert p[k..] == [p[k]] + p[k + 1..];
        k := k - 1;
      }
    }
    forall j | k < j < |p|
      ensures p[j] != v
    {
      assert p[j] == p[k + 1..][j - k - 1];
    }
  }

  /** Cutting the cycles out of a path leaves a path without repetition over
      a subset of its nodes. */
  lemma {:induction false} SimplePath(g: Graph, p: seq<nat>, a: nat, b: nat) returns (q: seq<nat>)
    requires PathFromTo(g, p, a, b)
    ensures PathFromTo(g, q, a, b) && NoDup(q)
    ensures forall x :: x in q ==> x in p
    decreases |p|
  {
    if a == b {
      q := [a];
    } else {
      var k := LastIndex(p, a);
      PathSuffix(g, p, a, b, k + 1);
      var r := SimplePath(g, p[k + 1..], p[k + 1], b);
      PathCons(g, r, a, p[k + 1], b);
      q := [a] + r;
      forall i, j | 0 <= i < j < |q|
        ensures q[i] != q[j]
      {
        assert q[j] == r[j - 1] && r[j - 1] in p[k + 1..];
        if i > 0 {
          assert q[i] == r[i - 1];
        }
      }
    }
  }

  /** A sequence of distinct numbers below `n` has at most `n` entries. */
  lemma {:induction false} NoDupBound(s: seq<nat>, n: nat)
    requires NoDup(s) && forall x :: x in s ==> x < n
    ensures |s| <= n
  {
    var elems := set x | x in s;
    NoDupCardinality(s);
    var all := Below(n);
    assert elems <= all;
    SubsetCardinality(elems, all);
  }

  lemma {:induction false} NoDupCardinality<T>(s: seq<T>)
    requires NoDup(s)
    ensures |set x | x in s| == |s|
  {
    if s == [] {
      assert (set x | x in s) == {};
    } else {
      var t := s[..|s| - 1];
      NoDupCardinality(t);
      assert s == t + [s[|s| - 1]];
      assert s[|s| - 1] !in t;
      assert (set x | x in s) == (set x | x in t) + {s[|s| - 1]};
    }
  }

  ghost function Below(n: nat): (s: set<nat>)
    ensures |s| == n
    ensures forall x: nat :: x in s <==> x < n
  {
    if n == 0 then {} else Below(n - 1) + {n - 1}
  }

  lemma {:induction false} SubsetCardinality<T>(a: set<T>, b: set<T>)
    requires a <= b
    ensures |a| <= |b|
  {
    if a != {} {
      var x :| x in a;
      SubsetCardinality(a - {x}, b - {x});
    }
  }
}
