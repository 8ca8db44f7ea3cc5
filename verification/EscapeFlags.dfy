/** Escape flags: which loop allocates a slot, and which loop a break names. */
module EscapeFlags {
  import opened Graphs
  import opened CfgTypes
  import opened StructureTree

  /** The slots of the loops of a tree, outer loops before inner ones, in the
      order of the tree. */
  function Slots(nodes: seq<StructureNode>): seq<nat>
    decreases nodes, 0
  {
    if nodes == [] then [] else NodeSlots(nodes[0]) + Slots(nodes[1..])
  }

  function NodeSlots(node: StructureNode): seq<nat>
    decreases node, 1
  {
    match node
    case IfThenElse(_, _, a, b) => Slots(a) + Slots(b)
    case Loop(_, prefix, _, flag, body) => (if flag.Some? then [flag.value] else []) + Slots(prefix) + Slots(body)
    case _ => []
  }

  /** `validate_escape_flag_positions`: breaks only where nothing follows. */
  predicate FlagsAtTail(nodes: seq<StructureNode>, tail: bool) {
    forall i :: 0 <= i < |nodes| ==>
      var isTail := tail && i == |nodes| - 1;
      match nodes[i]
      case SetEscapeFlag(_) => isTail
      case IfThenElse(_, _, a, b) => FlagsAtTail(a, isTail) && FlagsAtTail(b, isTail)
      case _ => true
  }

  /** Every break sets the flag of the innermost loop around it, at the tail of
      that loop's body; `flag` is the flag of the loop around `nodes`. */
  predicate BreaksInnermost(nodes: seq<StructureNode>, flag: Option<nat>) {
    forall i :: 0 <= i < |nodes| ==>
      match nodes[i]
      case SetEscapeFlag(slot) => flag == Some(slot)
      case IfThenElse(_, _, a, b) => BreaksInnermost(a, flag) && BreaksInnermost(b, flag)
      case Loop(_, prefix, _, own, body) =>
        BreaksInnermost(prefix, own) && BreaksInnermost(body, own) && (own.Some? ==> FlagsAtTail(body, true))
      case _ => true
  }

  /** The loops take the slots from `lo` up to `hi`, each exactly once. */
  ghost predicate Flagged(nodes: seq<StructureNode>, flag: Option<nat>, lo: nat, hi: nat) {
    && lo <= hi && BreaksInnermost(nodes, flag)
    && Slots(nodes) == seq(hi - lo, i requires 0 <= i < hi - lo => lo + i)
  }

  lemma {:induction false} SlotsConcat(a: seq<StructureNode>, b: seq<StructureNode>)
    ensures Slots(a + b) == Slots(a) + Slots(b)
    decreases |a|
  {
    if a == [] {
      assert a + b == b;
    } else {
      assert (a + b)[1..] == a[1..] + b;
      SlotsConcat(a[1..], b);
    }
  }

  lemma FlaggedNothing(flag: Option<nat>, n: nat)
    ensures Flagged([], flag, n, n)
  {
  }

  lemma FlaggedConcat(a: seq<StructureNode>, b: seq<StructureNode>, flag: Option<nat>, lo: nat, mid: nat, hi: nat)
    requires Flagged(a, flag, lo, mid) && Flagged(b, flag, mid, hi)
    ensures Flagged(a + b, flag, lo, hi)
  {
    hide Slots, BreaksInnermost;
    SlotsConcat(a, b);
    BreaksConcat(a, b, flag);
  }

  lemma BreaksConcat(a: seq<StructureNode>, b: seq<StructureNode>, flag: Option<nat>)
    requires BreaksInnermost(a, flag) && BreaksInnermost(b, flag)
    ensures BreaksInnermost(a + b, flag)
  {
  }

  lemma FlaggedLeaf(node: StructureNode, flag: Option<nat>, n: nat)
    requires !node.IfThenElse? && !node.Loop? && (node.SetEscapeFlag? ==> flag == Some(node.slot))
    ensures Flagged([node], flag, n, n)
  {
    assert Slots([node][1..]) == [];
  }

  lemma FlaggedLeaves(a: StructureNode, b: StructureNode, flag: Option<nat>, n: nat)
    requires !a.IfThenElse? && !a.Loop? && !a.SetEscapeFlag?
    requires !b.IfThenElse? && !b.Loop? && !b.SetEscapeFlag?
    ensures Flagged([a, b], flag, n, n)
  {
    FlaggedLeaf(a, flag, n);
    FlaggedLeaf(b, flag, n);
    FlaggedConcat([a], [b], flag, n, n, n);
    assert [a] + [b] == [a, b];
  }

  lemma FlaggedIf(b: BlockId, condition: nat, thenBranch: seq<StructureNode>, elseBranch: seq<StructureNode>, flag: Option<nat>,
                  lo: nat, mid: nat, hi: nat)
    requires Flagged(thenBranch, flag, lo, mid) && Flagged(elseBranch, flag, mid, hi)
    ensures Flagged([Linear(b), IfThenElse(b, condition, thenBranch, elseBranch)], flag, lo, hi)
  {
    var node := IfThenElse(b, condition, thenBranch, elseBranch);
    assert [Linear(b), node][1..] == [node] && [node][1..] == [];
    assert NodeSlots(node) == Slots(thenBranch) + Slots(elseBranch);
    assert Slots([node]) == NodeSlots(node);
    assert Slots([Linear(b), node]) == [] + Slots([node]);
  }

  lemma LoopFlagged(h: BlockId, prefix: seq<StructureNode>, condition: Option<LoopCondition>, own: Option<nat>, body: seq<StructureNode>,
                    flag: Option<nat>, lo: nat, mid: nat, hi: nat)
    requires own.Some? ==> own.value == lo && FlagsAtTail(body, true)
    requires Flagged(prefix, own, if own.Some? then lo + 1 else lo, mid) && Flagged(body, own, mid, hi)
    ensures Flagged([Loop(h, prefix, condition, own, body)], flag, lo, hi)
  {
    var node := Loop(h, prefix, condition, own, body);
    assert [node][1..] == [];
    assert Slots([node]) == NodeSlots(node);
  }

  lemma {:induction false} FlaggedChain(nodes: seq<StructureNode>, flag: Option<nat>, n: nat)
    requires forall i :: 0 <= i < |nodes| ==> nodes[i].Linear?
    ensures Flagged(nodes, flag, n, n)
    decreases |nodes|
  {
    if nodes != [] {
      FlaggedChain(nodes[1..], flag, n);
    }
  }

  // ── What stands behind a break ───────────────────────────────────────────

  /** Nodes whose loop has another flag, or none, never set this one. */
  lemma {:induction false} OthersFlag(diverging: set<BlockId>, nodes: seq<StructureNode>, flag: Option<nat>, slot: nat, w: seq<bool>, flags: set<nat>)
    requires BreaksInnermost(nodes, flag) && flag != Some(slot) && slot !in Slots(nodes) && slot !in flags
    ensures var r := RunSeq(diverging, nodes, w, flags); r.end.Finished? ==> slot !in r.end.flags
    decreases |w|, nodes, 0
  {
    if nodes != [] {
      SlotsConcat([nodes[0]], nodes[1..]);
      assert [nodes[0]] + nodes[1..] == nodes;
      OthersFlagNode(diverging, nodes[0], flag, slot, w, flags);
      var first := RunNode(diverging, nodes[0], w, flags);
      if first.end.Finished? {
        OthersFlag(diverging, nodes[1..], flag, slot, first.end.rest, first.end.flags);
      }
    }
  }

  lemma {:induction false} OthersFlagNode(diverging: set<BlockId>, node: StructureNode, flag: Option<nat>, slot: nat, w: seq<bool>, flags: set<nat>)
    requires BreaksInnermost([node], flag) && flag != Some(slot) && slot !in NodeSlots(node) && slot !in flags
    ensures var r := RunNode(diverging, node, w, flags); r.end.Finished? ==> slot !in r.end.flags
    decreases |w|, node, if node.Loop? && node.escapeFlag.Some? && node.escapeFlag.value in flags then 1 else 2
  {
    assert [node][0] == node;
    match node
    case IfThenElse(_, _, thenBranch, elseBranch) =>
      if w != [] {
        OthersFlag(diverging, if w[0] then thenBranch else elseBranch, flag, slot, w[1..], flags);
      }
    case Loop(_, testPrefix, condition, own, body) =>
      if condition.Some? || own.Some? {
        OthersFlag(diverging, testPrefix, own, slot, w, flags);
        var test := RunSeq(diverging, testPrefix, w, flags);
        if test.end.Finished? && (condition.Some? ==> test.end.rest != []) {
          var w1 := if condition.Some? then test.end.rest[1..] else test.end.rest;
          var again := (condition.Some? ==> test.end.rest[0] == condition.value.polarity.ContinueOnTrue?)
                       && (own.Some? ==> own.value !in test.end.flags);
          if again {
            OthersFlag(diverging, body, own, slot, w1, test.end.flags);
            var pass := RunSeq(diverging, body, w1, test.end.flags);
            if pass.end.Finished? && !(condition.None? && |pass.end.rest| == |w| && own.value !in pass.end.flags) {
              OthersFlagNode(diverging, node, flag, slot, pass.end.rest, pass.end.flags);
            }
          }
        }
      }
    case _ =>
  }

  /** Where no break may stand none is run. */
  lemma {:induction false} NoBreakRuns(diverging: set<BlockId>, nodes: seq<StructureNode>, slot: nat, w: seq<bool>, flags: set<nat>)
    requires FlagsAtTail(nodes, false) && BreaksInnermost(nodes, Some(slot)) && slot !in Slots(nodes) && slot !in flags
    ensures var r := RunSeq(diverging, nodes, w, flags); r.end.Finished? ==> slot !in r.end.flags
    decreases nodes
  {
    if nodes != [] {
      var node := nodes[0];
      assert [node] + nodes[1..] == nodes;
      SlotsConcat([node], nodes[1..]);
      assert Slots([node]) == NodeSlots(node);
      if node.IfThenElse? {
        if w != [] {
          NoBreakRuns(diverging, if w[0] then node.thenBranch else node.elseBranch, slot, w[1..], flags);
        }
      } else {
        assert BreaksInnermost([node], None);
        OthersFlagNode(diverging, node, None, slot, w, flags);
      }
      var first := RunNode(diverging, node, w, flags);
      if first.end.Finished? {
        NoBreakRuns(diverging, nodes[1..], slot, first.end.rest, first.end.flags);
      }
    }
  }

  /** Nothing runs behind a break: in an accepted body, when nodes are left to
      run, the flag is not set. */
  lemma NothingBehindBreak(diverging: set<BlockId>, nodes: seq<StructureNode>, k: nat, slot: nat, w: seq<bool>, flags: set<nat>)
    requires FlagsAtTail(nodes, true) && BreaksInnermost(nodes, Some(slot)) && slot !in Slots(nodes) && slot !in flags && k < |nodes|
    ensures var r := RunSeq(diverging, nodes[..k], w, flags); r.end.Finished? ==> slot !in r.end.flags
  {
    SlotsConcat(nodes[..k], nodes[k..]);
    assert nodes[..k] + nodes[k..] == nodes;
    assert FlagsAtTail(nodes[..k], false);
    NoBreakRuns(diverging, nodes[..k], slot, w, flags);
  }
}
