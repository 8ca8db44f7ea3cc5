/** Depth-first numbering of a graph (`dfs_postorder`, `reverse_postorder`). */
module Postorder {
  import opened Graphs

  /** The nodes of `seg` are distinct, were unvisited `before`, and are exactly
      what `after` marks in addition. */
  ghost predicate Marked(before: seq<bool>, after: seq<bool>, seg: seq<nat>) {
    && |before| == |after|
    && NoDup(seg)
    && (forall i :: 0 <= i < |seg| ==> seg[i] < |before| && !before[seg[i]])
    && (forall v: nat :: v < |before| ==> (after[v] <==> before[v] || v in seg))
  }

  /** No edge leaves `seg` for an unvisited node. */
  ghost predicate Finished(succ: Graph, after: seq<bool>, seg: seq<nat>) {
    forall v: nat, s: nat :: v in seg && Edge(succ, v, s) ==> s < |after| && after[s]
  }

  /** `seg[i]` is entered by an edge from a node finished later. */
  ghost predicate HasParent(succ: Graph, seg: seq<nat>, i: nat)
    requires i < |seg|
  {
    exists j :: i < j < |seg| && Edge(succ, seg[j], seg[i])
  }

  /** A node earlier in the order has an edge to the `i`-th. */
  ghost predicate Entered(succ: Graph, rpo: seq<nat>, i: nat)
    requires i < |rpo|
  {
    exists j :: 0 <= j < i && Edge(succ, rpo[j], rpo[i])
  }

  /** `rpo` lists the nodes reachable from `entry` once each, `entry` first, and
      every other node after one of its predecessors. */
  ghost predicate IsRpo(succ: Graph, entry: nat, rpo: seq<nat>) {
    && NoDup(rpo)
    && |rpo| > 0 && rpo[0] == entry
    && (forall v: nat :: v in rpo <==> Reach(succ, entry, v))
    && (forall i {:trigger Entered(succ, rpo, i)} :: 0 < i < |rpo| ==> Entered(succ, rpo, i))
  }

  ghost function Unvisited(visited: seq<bool>): set<nat> {
    set v: nat | v < |visited| && !visited[v]
  }

  lemma MarkedTrans(a: seq<bool>, b: seq<bool>, c: seq<bool>, s: seq<nat>, t: seq<nat>)
    requires Marked(a, b, s) && Marked(b, c, t)
    ensures Marked(a, c, s + t)
  {
    var u := s + t;
    forall i, j | 0 <= i < j < |u|
      ensures u[i] != u[j]
    {
      if i < |s| && j >= |s| {
        assert u[i] in s;
      }
    }
  }

  /** What a call at `node` adds: the nodes reached through unvisited nodes,
      each listed after the subtree below it. */
  ghost predicate Explored(succ: Graph, node: nat, before: seq<bool>, after: seq<bool>, seg: seq<nat>)
    requires node < |succ| == |before|
  {
    && Marked(before, after, seg)
    && Finished(succ, after, seg)
    && (if before[node] then seg == [] else seg != [] && seg[|seg| - 1] == node)
    && (forall i :: 0 <= i < |seg| - 1 ==> HasParent(succ, seg, i))
    && (forall v :: v in seg ==> Reach(succ, node, v))
  }

  /** The same while `node` is open and its first `k` successors are done. */
  ghost predicate Exploring(succ: Graph, node: nat, before: seq<bool>, after: seq<bool>, seg: seq<nat>, k: nat)
    requires node < |succ| == |before| && k <= |succ[node]|
  {
    && Marked(before, after, seg)
    && Finished(succ, after, seg)
    && (forall j :: 0 <= j < k ==> succ[node][j] < |after| && after[succ[node][j]])
    && (forall i :: 0 <= i < |seg| ==> HasParent(succ, seg, i) || Edge(succ, node, seg[i]))
    && (forall v :: v in seg ==> Reach(succ, node, v))
  }

  lemma ExploredChild(succ: Graph, node: nat, before: seq<bool>, mid: seq<bool>, after: seq<bool>,
                      s: seq<nat>, t: seq<nat>, k: nat)
    requires InRange(succ) && node < |succ| == |before| && k < |succ[node]|
    requires Exploring(succ, node, before, mid, s, k)
    requires Explored(succ, succ[node][k], mid, after, t)
    ensures Exploring(succ, node, before, after, s + t, k + 1)
  {
    var child := succ[node][k];
    var u := s + t;
    MarkedTrans(before, mid, after, s, t);
    forall i | 0 <= i < |u|
      ensures HasParent(succ, u, i) || Edge(succ, node, u[i])
    {
      if i < |s| {
        if HasParent(succ, s, i) {
          var j :| i < j < |s| && Edge(succ, s[j], s[i]);
          assert Edge(succ, u[j], u[i]);
        }
      } else if i < |u| - 1 {
        assert HasParent(succ, t, i - |s|);
        var j :| i - |s| < j < |t| && Edge(succ, t[j], t[i - |s|]);
        assert Edge(succ, u[j + |s|], u[i]);
      }
    }
    forall v | v in t
      ensures Reach(succ, node, v)
    {
      ReachRefl(succ, node);
      ReachEdge(succ, node, node, child);
      ReachTrans(succ, node, child, v);
    }
  }

  lemma ExploredNode(succ: Graph, node: nat, before: seq<bool>, after: seq<bool>, below: seq<nat>)
    requires InRange(succ) && node < |succ| == |before| && !before[node]
    requires Exploring(succ, node, before[node := true], after, below, |succ[node]|)
    ensures Explored(succ, node, before, after, below + [node])
  {
    var seg := below + [node];
    assert node !in below;
    forall i | 0 <= i < |seg| - 1
      ensures HasParent(succ, seg, i)
    {
      if HasParent(succ, below, i) {
        var j :| i < j < |below| && Edge(succ, below[j], below[i]);
        assert Edge(succ, seg[j], seg[i]);
      } else {
        assert Edge(succ, seg[|seg| - 1], seg[i]);
      }
    }
    ReachRefl(succ, node);
  }

  lemma ExploredVisited(succ: Graph, node: nat, before: seq<bool>)
    requires node < |succ| == |before| && before[node]
    ensures Explored(succ, node, before, before, [])
  {
  }

  lemma ExploringStart(succ: Graph, node: nat, before: seq<bool>)
    requires node < |succ| == |before|
    ensures Exploring(succ, node, before[node := true], before[node := true], [], 0)
  {
  }

  lemma ExploringShrinks(succ: Graph, node: nat, before: seq<bool>, mid: seq<bool>, below: seq<nat>, k: nat)
    requires node < |succ| == |before| && !before[node] && k <= |succ[node]|
    requires Exploring(succ, node, before[node := true], mid, below, k)
    ensures |mid| == |before| && Unvisited(mid) < Unvisited(before)
  {
    assert node !in Unvisited(mid) && node in Unvisited(before);
  }

  method DfsPostorder(node: nat, succ: Graph, visited: array<bool>, out: seq<nat>)
    returns (res: seq<nat>, ghost seg: seq<nat>)
    requires InRange(succ) && visited.Length == |succ| && node < |succ|
    modifies visited
    ensures res == out + seg
    ensures Explored(succ, node, old(visited[..]), visited[..], seg)
    decreases Unvisited(visited[..])
  {
    hide Explored, Exploring;
    ghost var before := visited[..];
    if visited[node] {
      ExploredVisited(succ, node, before);
      return out, [];
    }
    visited[node] := true;
    ghost var below: seq<nat> := [];
    res := out;
    assert visited[..] == before[node := true];
    ExploringStart(succ, node, before);
    for k := 0 to |succ[node]|
      invariant res == out + below
      invariant Exploring(succ, node, before[node := true], visited[..], below, k)
    {
      ghost var mid := visited[..];
      ghost var sub;
      ExploringShrinks(succ, node, before, mid, below, k);
      res, sub := DfsPostorder(succ[node][k], succ, visited, res);
      ExploredChild(succ, node, before[node := true], mid, visited[..], below, sub, k);
      below := below + sub;
    }
    res := res + [node];
    seg := below + [node];
    ExploredNode(succ, node, before, visited[..], below);
  }

  method ReversePostorder(succ: Graph, entry: nat) returns (rpo: seq<nat>)
    requires InRange(succ) && entry < |succ|
    ensures IsRpo(succ, entry, rpo)
  {
    hide IsRpo, Explored;
    var visited := new bool[|succ|](_ => false);
    assert visited[..] == seq(|succ|, _ => false);
    var postorder;
    ghost var seg;
    postorder, seg := DfsPostorder(entry, succ, visited, []);
    assert postorder == seg;
    rpo := seq(|postorder|, i requires 0 <= i < |postorder| => postorder[|postorder| - 1 - i]);
    ReversedIsRpo(succ, entry, visited[..], postorder, rpo);
  }

  lemma ReversedIsRpo(succ: Graph, entry: nat, after: seq<bool>, seg: seq<nat>, rpo: seq<nat>)
    requires InRange(succ) && entry < |succ| == |after|
    requires Explored(succ, entry, seq(|succ|, _ => false), after, seg)
    requires |rpo| == |seg| && forall i :: 0 <= i < |rpo| ==> rpo[i] == seg[|seg| - 1 - i]
    ensures IsRpo(succ, entry, rpo)
  {
    forall i | 0 < i < |rpo|
      ensures Entered(succ, rpo, i)
    {
      var k := |seg| - 1 - i;
      assert HasParent(succ, seg, k);
      var m :| k < m < |seg| && Edge(succ, seg[m], seg[k]);
      assert rpo[|seg| - 1 - m] == seg[m];
    }
    forall v: nat
      ensures v in rpo <==> Reach(succ, entry, v)
    {
      SameElements(seg, rpo, v);
      if Reach(succ, entry, v) {
        var p :| PathFromTo(succ, p, entry, v);
        ClosedContainsPath(succ, after, seg, p);
      }
    }
  }

  lemma SameElements(seg: seq<nat>, rpo: seq<nat>, v: nat)
    requires |rpo| == |seg| && forall i :: 0 <= i < |rpo| ==> rpo[i] == seg[|seg| - 1 - i]
    ensures v in rpo <==> v in seg
  {
    if v in seg {
      var k :| 0 <= k < |seg| && seg[k] == v;
      assert rpo[|seg| - 1 - k] == v;
    }
  }

  lemma {:induction false} ClosedContainsPath(succ: Graph, after: seq<bool>, seg: seq<nat>, p: seq<nat>)
    requires IsPath(succ, p) && p[0] in seg && |after| == |succ|
    requires Finished(succ, after, seg)
    requires forall v: nat :: v < |after| ==> (after[v] <==> v in seg)
    ensures p[|p| - 1] in seg
  {
    if |p| > 1 {
      assert Edge(succ, p[0], p[1]);
      PathSuffix(succ, p, p[0], p[|p| - 1], 1);
      ClosedContainsPath(succ, after, seg, p[1..]);
    }
  }
}
