/** Blocks from which every forward path traps (`compute_always_divergent`). */
module Divergence {
  import opened Graphs
  import opened CfgTypes

  predicate IsLeaf(t: Terminator, divergentEntries: set<BlockId>) {
    t.Trap? || t.TrapReturn? || (t.Call? && t.callee in divergentEntries)
  }

  predicate Leaf(blocks: seq<Block>, divergentEntries: set<BlockId>, b: BlockId) {
    b < |blocks| && IsLeaf(blocks[b].terminator, divergentEntries)
  }

  /** Every path from `b` ends in a divergent leaf after at most `n` edges. */
  ghost predicate DivergesWithin(g: Graph, leaves: set<nat>, n: nat, b: nat) {
    b in leaves || (n > 0 && b < |g| && g[b] != [] && forall s :: s in g[b] ==> DivergesWithin(g, leaves, n - 1, s))
  }

  ghost predicate Diverges(g: Graph, leaves: set<nat>, b: nat) {
    exists n: nat :: DivergesWithin(g, leaves, n, b)
  }

  ghost function Leaves(blocks: seq<Block>, divergentEntries: set<BlockId>): set<nat> {
    set b: nat | b < |blocks| && Leaf(blocks, divergentEntries, b)
  }

  // ── Counting pending successors ──────────────────────────────────────────

  /** How many entries of `succ` are not yet processed. */
  ghost function Pending(succ: seq<nat>, processed: set<nat>): nat {
    if succ == [] then 0
    else Pending(succ[1..], processed) + if succ[0] in processed then 0 else 1
  }

  lemma {:induction false} PendingMore(succ: seq<nat>, processed: set<nat>, x: nat)
    requires x !in processed
    ensures Pending(succ, processed) == Pending(succ, processed + {x}) + multiset(succ)[x]
  {
    if succ != [] {
      PendingMore(succ[1..], processed, x);
      assert succ == [succ[0]] + succ[1..];
    }
  }

  lemma {:induction false} PendingNone(succ: seq<nat>)
    ensures Pending(succ, {}) == |succ|
  {
    if succ != [] {
      PendingNone(succ[1..]);
    }
  }

  lemma {:induction false} PendingZero(succ: seq<nat>, processed: set<nat>)
    ensures Pending(succ, processed) == 0 <==> forall s :: s in succ ==> s in processed
  {
    if succ != [] {
      PendingZero(succ[1..], processed);
      assert succ == [succ[0]] + succ[1..];
    }
  }

  lemma {:induction false} DivergesMore(g: Graph, leaves: set<nat>, n: nat, m: nat, b: nat)
    requires DivergesWithin(g, leaves, n, b) && n <= m
    ensures DivergesWithin(g, leaves, m, b)
    decreases n
  {
    if b !in leaves {
      forall s | s in g[b]
        ensures DivergesWithin(g, leaves, m - 1, s)
      {
        DivergesMore(g, leaves, n - 1, m - 1, s);
      }
    }
  }

  /** A block diverges when all its successors, of which there are some, do. */
  lemma {:induction false} AllDiverge(g: Graph, leaves: set<nat>, succ: seq<nat>) returns (n: nat)
    requires forall s :: s in succ ==> Diverges(g, leaves, s)
    ensures forall s :: s in succ ==> DivergesWithin(g, leaves, n, s)
  {
    if succ == [] {
      n := 0;
    } else {
      var m := AllDiverge(g, leaves, succ[1..]);
      assert succ[0] in succ;
      var k: nat :| DivergesWithin(g, leaves, k, succ[0]);
      n := if m < k then k else m;
      forall s | s in succ
        ensures DivergesWithin(g, leaves, n, s)
      {
        if s == succ[0] {
          DivergesMore(g, leaves, k, n, s);
        } else {
          assert s in succ[1..];
          DivergesMore(g, leaves, m, n, s);
        }
      }
    }
  }

  lemma SuccessorsDiverge(g: Graph, leaves: set<nat>, b: nat)
    requires b < |g| && g[b] != [] && forall s :: s in g[b] ==> Diverges(g, leaves, s)
    ensures Diverges(g, leaves, b)
  {
    var n := AllDiverge(g, leaves, g[b]);
    assert DivergesWithin(g, leaves, n + 1, b);
  }

  // ── The worklist ─────────────────────────────────────────────────────────

  /** `remaining` counts the unprocessed successors except for those occurrences
      of `x` already accounted for by `seen`, and a block is marked once none
      remain. */
  ghost predicate Counting(g: Graph, leaves: set<nat>, remaining: seq<nat>, divergent: set<nat>, processed: set<nat>, seen: seq<nat>) {
    && |remaining| == |g|
    && (forall j: nat :: j < |g| ==> Pending(g[j], processed) == remaining[j] + multiset(seen)[j])
    && (forall j: nat :: j in divergent <==> j in leaves || (j < |g| && g[j] != [] && remaining[j] == 0))
    && (forall j :: j in divergent ==> Diverges(g, leaves, j))
    && processed <= divergent
    && (forall j :: j in leaves ==> j < |g| && g[j] == [])
  }

  lemma CountingStart(g: Graph, leaves: set<nat>, remaining: seq<nat>)
    requires |remaining| == |g| && forall j: nat :: j < |g| ==> remaining[j] == |g[j]|
    requires forall j :: j in leaves ==> j < |g| && g[j] == []
    ensures Counting(g, leaves, remaining, leaves, {}, [])
  {
    forall j: nat | j < |g|
      ensures Pending(g[j], {}) == remaining[j]
    {
      PendingNone(g[j]);
    }
    forall j | j in leaves
      ensures Diverges(g, leaves, j)
    {
      assert DivergesWithin(g, leaves, 0, j);
    }
  }

  /** The counter of a predecessor not yet accounted for is positive. */
  lemma CountingAccess(g: Graph, h: Graph, leaves: set<nat>, remaining: seq<nat>, divergent: set<nat>, processed: set<nat>,
                       x: nat, i: nat)
    requires Inverse(g, h) && x < |h| && i < |h[x]| && InRange(h)
    requires Counting(g, leaves, remaining, divergent, processed, h[x][..i])
    requires x in divergent && x !in processed
    ensures h[x][i] < |remaining| && remaining[h[x][i]] > 0
    ensures h[x][i] !in divergent
    ensures var p := h[x][i]; Pending(g[p], processed + {x}) == Pending(g[p], processed) - multiset(h[x])[p]
    ensures multiset(h[x][..i + 1]) == multiset(h[x][..i])[h[x][i] := multiset(h[x][..i])[h[x][i]] + 1]
    ensures multiset(h[x][..i + 1])[h[x][i]] <= multiset(h[x])[h[x][i]]
  {
    var p := h[x][i];
    SeenNext(h[x], i);
    SameMultiplicity(g, h, p, x);
    hide Inverse, Diverges, Pending;
    PendingMore(g[p], processed, x);
    assert remaining[p] > 0;
  }

  lemma SameMultiplicity(g: Graph, h: Graph, p: nat, x: nat)
    requires Inverse(g, h) && InRange(h) && x < |h| && p in h[x]
    ensures p < |g| && multiset(g[p])[x] == multiset(h[x])[p] && g[p] != []
  {
    assert multiset(g[p])[x] == multiset(h[x])[p];
    assert p in multiset(h[x]);
  }

  lemma SeenNext(s: seq<nat>, i: nat)
    requires i < |s|
    ensures multiset(s[..i + 1]) == multiset(s[..i])[s[i] := multiset(s[..i])[s[i]] + 1]
    ensures multiset(s[..i + 1])[s[i]] <= multiset(s)[s[i]]
  {
    assert s[..i + 1] == s[..i] + [s[i]];
    assert s == s[..i + 1] + s[i + 1..];
    assert multiset(s) == multiset(s[..i + 1]) + multiset(s[i + 1..]);
  }

  /** One predecessor occurrence: the counter is positive, and the predecessor is
      new when it drops to zero. */
  lemma CountingStep(g: Graph, h: Graph, leaves: set<nat>, remaining: seq<nat>, divergent: set<nat>, processed: set<nat>,
                     x: nat, i: nat)
    requires Inverse(g, h) && x < |h| && i < |h[x]| && InRange(h)
    requires Counting(g, leaves, remaining, divergent, processed, h[x][..i])
    requires x in divergent && x !in processed
    ensures h[x][i] < |remaining| && remaining[h[x][i]] > 0
    ensures h[x][i] !in divergent
    ensures var p := h[x][i];
            var r := remaining[p := remaining[p] - 1];
            Counting(g, leaves, r, if r[p] == 0 then divergent + {p} else divergent, processed, h[x][..i + 1])
  {
    CountingAccess(g, h, leaves, remaining, divergent, processed, x, i);
    hide Inverse, InRange, Diverges;
    var p := h[x][i];
    var r := remaining[p := remaining[p] - 1];
    if r[p] == 0 {
      assert Pending(g[p], processed + {x}) == 0;
      PendingZero(g[p], processed + {x});
      SuccessorsDiverge(g, leaves, p);
    }
  }

  lemma CountingDone(g: Graph, h: Graph, leaves: set<nat>, remaining: seq<nat>, divergent: set<nat>, processed: set<nat>, x: nat)
    requires Inverse(g, h) && x < |h|
    requires Counting(g, leaves, remaining, divergent, processed, h[x])
    requires x in divergent && x !in processed
    ensures Counting(g, leaves, remaining, divergent, processed + {x}, [])
  {
    forall j: nat | j < |g|
      ensures Pending(g[j], processed + {x}) == remaining[j]
    {
      PendingMore(g[j], processed, x);
      assert multiset(g[j])[x] == multiset(h[x])[j];
    }
  }

  lemma {:induction false} CountingComplete(g: Graph, leaves: set<nat>, remaining: seq<nat>, divergent: set<nat>, n: nat, b: nat)
    requires Counting(g, leaves, remaining, divergent, divergent, [])
    requires DivergesWithin(g, leaves, n, b)
    ensures b in divergent
    decreases n
  {
    if b !in leaves {
      forall s | s in g[b]
        ensures s in divergent
      {
        CountingComplete(g, leaves, remaining, divergent, n - 1, s);
      }
      PendingZero(g[b], divergent);
    }
  }

  method SeedLeaves(blocks: seq<Block>, divergentEntries: set<BlockId>) returns (divergent: set<BlockId>, worklist: seq<BlockId>)
    ensures divergent == Leaves(blocks, divergentEntries)
    ensures NoDup(worklist) && forall b :: b in worklist <==> b in divergent
  {
    divergent, worklist := {}, [];
    for i := 0 to |blocks|
      invariant forall b: nat :: b in divergent <==> b < i && Leaf(blocks, divergentEntries, b)
      invariant NoDup(worklist) && forall b :: b in worklist <==> b in divergent
    {
      if IsLeaf(blocks[i].terminator, divergentEntries) {
        divergent := divergent + {i};
        worklist := worklist + [i];
      }
    }
  }

  /** What is marked, what is processed and what is pending on the worklist. */
  ghost predicate Scheduled(g: Graph, divergent: set<nat>, processed: set<nat>, worklist: seq<nat>) {
    && NoDup(worklist)
    && (forall b :: b in worklist <==> b in divergent && b !in processed)
    && (forall b :: b in divergent ==> b < |g|)
  }

  lemma ScheduledPop(g: Graph, divergent: set<nat>, processed: set<nat>, rest: seq<nat>, x: nat)
    requires Scheduled(g, divergent, processed, rest + [x])
    ensures x in divergent && x !in processed && x < |g|
    ensures Scheduled(g, divergent, processed + {x}, rest)
  {
    assert x in rest + [x];
    assert x !in rest by {
      forall i | 0 <= i < |rest|
        ensures rest[i] != x
      {
        assert (rest + [x])[i] != (rest + [x])[|rest|];
      }
    }
    forall b
      ensures b in rest <==> b in divergent && b !in processed + {x}
    {
      assert b in rest + [x] <==> b in rest || b == x;
    }
    forall i, j | 0 <= i < j < |rest|
      ensures rest[i] != rest[j]
    {
      assert (rest + [x])[i] != (rest + [x])[j];
    }
  }

  lemma ScheduledPush(g: Graph, divergent: set<nat>, processed: set<nat>, worklist: seq<nat>, p: nat)
    requires Scheduled(g, divergent, processed, worklist) && p !in divergent && p !in processed && p < |g|
    ensures Scheduled(g, divergent + {p}, processed, worklist + [p])
  {
  }

  method ComputeAlwaysDivergent(blocks: seq<Block>, callerSucc: Graph, callerPred: Graph, divergentEntries: set<BlockId>)
    returns (divergent: set<BlockId>)
    requires |blocks| == |callerSucc| && Inverse(callerSucc, callerPred) && InRange(callerPred)
    requires forall b: nat :: Leaf(blocks, divergentEntries, b) ==> callerSucc[b] == []
    ensures forall b: nat :: b in divergent <==> Diverges(callerSucc, Leaves(blocks, divergentEntries), b)
  {
    hide Counting, Scheduled, Inverse, Diverges;
    var n := |blocks|;
    ghost var leaves := Leaves(blocks, divergentEntries);
    var remaining: seq<nat> := seq(n, i requires 0 <= i < n => |callerSucc[i]|);
    var worklist;
    divergent, worklist := SeedLeaves(blocks, divergentEntries);
    ghost var processed: set<nat> := {};
    CountingStart(callerSucc, leaves, remaining);
    ScheduledStart(callerSucc, divergent, worklist);
    InverseSize(callerSucc, callerPred);
    while worklist != []
      invariant |remaining| == n && processed <= divergent
      invariant Counting(callerSucc, leaves, remaining, divergent, processed, [])
      invariant Scheduled(callerSucc, divergent, processed, worklist)
      decreases Below(n) - processed
    {
      var x := worklist[|worklist| - 1];
      assert worklist == worklist[..|worklist| - 1] + [x];
      worklist := worklist[..|worklist| - 1];
      ScheduledPop(callerSucc, divergent, processed, worklist, x);
      ghost var before := processed;
      assert callerPred[x][..0] == [];
      for i := 0 to |callerPred[x]|
        invariant |remaining| == n && x in divergent && before <= divergent
        invariant Counting(callerSucc, leaves, remaining, divergent, before, callerPred[x][..i])
        invariant Scheduled(callerSucc, divergent, before + {x}, worklist)
      {
        var pred := callerPred[x][i];
        CountingStep(callerSucc, callerPred, leaves, remaining, divergent, before, x, i);
        remaining := remaining[pred := remaining[pred] - 1];
        if remaining[pred] == 0 {
          ScheduledPush(callerSucc, divergent, before + {x}, worklist, pred);
          divergent := divergent + {pred};
          worklist := worklist + [pred];
        }
      }
      assert callerPred[x][..|callerPred[x]|] == callerPred[x];
      CountingDone(callerSucc, callerPred, leaves, remaining, divergent, before, x);
      processed := processed + {x};
    }
    ScheduledEnd(callerSucc, divergent, processed);
    AlwaysDivergentExact(callerSucc, leaves, remaining, divergent);
  }

  lemma InverseSize(g: Graph, h: Graph)
    requires Inverse(g, h)
    ensures |g| == |h|
  {
  }

  lemma ScheduledStart(g: Graph, divergent: set<nat>, worklist: seq<nat>)
    requires NoDup(worklist) && (forall b :: b in worklist <==> b in divergent) && (forall b :: b in divergent ==> b < |g|)
    ensures Scheduled(g, divergent, {}, worklist)
  {
  }

  lemma ScheduledEnd(g: Graph, divergent: set<nat>, processed: set<nat>)
    requires Scheduled(g, divergent, processed, []) && processed <= divergent
    ensures processed == divergent
  {
    var none: seq<nat> := [];
    assert forall b :: b in none <==> b in divergent && b !in processed;
  }

  lemma AlwaysDivergentExact(g: Graph, leaves: set<nat>, remaining: seq<nat>, divergent: set<nat>)
    requires Counting(g, leaves, remaining, divergent, divergent, [])
    ensures forall b: nat :: b in divergent <==> Diverges(g, leaves, b)
  {
    forall b: nat | Diverges(g, leaves, b)
      ensures b in divergent
    {
      var n: nat :| DivergesWithin(g, leaves, n, b);
      CountingComplete(g, leaves, remaining, divergent, n, b);
    }
  }

  // ── What the set means ───────────────────────────────────────────────────

  ghost predicate ClosedUnderAll(g: Graph, leaves: set<nat>, d: set<nat>) {
    && leaves <= d
    && forall b: nat :: b < |g| && g[b] != [] && (forall s :: s in g[b] ==> s in d) ==> b in d
  }

  /** The divergent blocks are the least set that holds the leaves and every
      block all of whose successors, of which there are some, are in the set. */
  lemma LeastClosed(g: Graph, leaves: set<nat>, divergent: set<nat>, d: set<nat>)
    requires forall b: nat :: b in divergent <==> Diverges(g, leaves, b)
    requires ClosedUnderAll(g, leaves, d)
    ensures ClosedUnderAll(g, leaves, divergent)
    ensures forall b: nat :: b in divergent ==> b in d
  {
    forall b: nat | b in leaves
      ensures b in divergent
    {
      assert DivergesWithin(g, leaves, 0, b);
    }
    forall b: nat | b < |g| && g[b] != [] && (forall s :: s in g[b] ==> s in divergent)
      ensures b in divergent
    {
      SuccessorsDiverge(g, leaves, b);
    }
    forall b: nat | b in divergent
      ensures b in d
    {
      var n: nat :| DivergesWithin(g, leaves, n, b);
      InEveryClosed(g, leaves, d, n, b);
    }
  }

  lemma {:induction false} InEveryClosed(g: Graph, leaves: set<nat>, d: set<nat>, n: nat, b: nat)
    requires ClosedUnderAll(g, leaves, d) && DivergesWithin(g, leaves, n, b)
    ensures b in d
    decreases n
  {
    if b !in leaves {
      forall s | s in g[b]
        ensures s in d
      {
        InEveryClosed(g, leaves, d, n - 1, s);
      }
    }
  }

  /** No path from `b` has more than `n` edges, and those that cannot be
      continued end in a leaf. */
  ghost predicate PathsEndInLeaves(g: Graph, leaves: set<nat>, n: nat, b: nat) {
    forall p, x: nat :: PathFromTo(g, p, b, x) ==> |p| <= n + 1 && (g[x] == [] ==> x in leaves)
  }

  lemma {:induction false} DivergentPaths(g: Graph, leaves: set<nat>, n: nat, b: nat, p: seq<nat>, x: nat)
    requires forall j :: j in leaves ==> j < |g| && g[j] == []
    requires DivergesWithin(g, leaves, n, b) && PathFromTo(g, p, b, x)
    ensures |p| <= n + 1 && (g[x] == [] ==> x in leaves)
    decreases |p|
  {
    if |p| > 1 {
      assert Edge(g, p[0], p[0 + 1]);
      PathSuffix(g, p, b, x, 1);
      DivergentPaths(g, leaves, n - 1, p[1], p[1..], x);
    }
  }

  lemma {:induction false} PathsDiverge(g: Graph, leaves: set<nat>, n: nat, b: nat)
    requires InRange(g) && b < |g| && PathsEndInLeaves(g, leaves, n, b)
    ensures DivergesWithin(g, leaves, n, b)
    decreases n
  {
    assert PathFromTo(g, [b], b, b);
    if b !in leaves {
      assert n > 0 by {
        assert PathFromTo(g, [b, g[b][0]], b, g[b][0]);
      }
      forall s | s in g[b]
        ensures DivergesWithin(g, leaves, n - 1, s)
      {
        forall p, x: nat | PathFromTo(g, p, s, x)
          ensures |p| <= n && (g[x] == [] ==> x in leaves)
        {
          PathCons(g, p, b, s, x);
          assert PathFromTo(g, [b] + p, b, x);
        }
        PathsDiverge(g, leaves, n - 1, s);
      }
    }
  }

  /** A block is marked exactly if its forward paths are all finite, of bounded
      length, and end in divergent leaves. */
  lemma DivergesIffPathsEnd(g: Graph, leaves: set<nat>, b: nat)
    requires InRange(g) && b < |g| && forall j :: j in leaves ==> j < |g| && g[j] == []
    ensures Diverges(g, leaves, b) <==> exists n: nat :: PathsEndInLeaves(g, leaves, n, b)
  {
    if Diverges(g, leaves, b) {
      var n: nat :| DivergesWithin(g, leaves, n, b);
      forall p, x: nat | PathFromTo(g, p, b, x)
        ensures |p| <= n + 1 && (g[x] == [] ==> x in leaves)
      {
        DivergentPaths(g, leaves, n, b, p, x);
      }
      assert PathsEndInLeaves(g, leaves, n, b);
    }
    if n: nat :| PathsEndInLeaves(g, leaves, n, b) {
      PathsDiverge(g, leaves, n, b);
    }
  }
}
