/** What bytecode does, driven like the graph by the outcomes of its conditional
    jumps, and that the blocks it is split into do the same. */
module BytecodeRuns {
  import opened Graphs
  import opened CfgTypes
  import opened Views
  import opened StructureTree
  import opened BlockSplitting

  // ── Runs of the bytecode ─────────────────────────────────────────────────

  /** An opcode is executed, a register is tested, a procedure is entered. */
  datatype Action = Executed(pc: nat) | Read(register: nat) | Entered(pc: nat)

  /** How `n` steps end: before the next opcode, by one of the opcodes that end a
      body, in a call that does not return, at a conditional jump with no outcome,
      or outside the code. */
  datatype CodeEnd = Before(pc: nat, rest: seq<bool>) | Returned(rest: seq<bool>) | Halted(rest: seq<bool>)
    | Failing | Lost | Undecided | Outside

  datatype CodeRun = CodeRun(actions: seq<Action>, end: CodeEnd)

  function After(actions: seq<Action>, r: CodeRun): CodeRun {
    CodeRun(actions + r.actions, r.end)
  }

  /** Where the procedures start. */
  function CallLocations(code: seq<Opcode>): set<nat> {
    set j | 0 <= j < |code| && code[j].CallOp? :: code[j].location
  }

  /** Where a conditional jump must go that has one arm in a procedure. */
  function Avoiding(code: seq<Opcode>, entries: set<nat>, pc: nat): Option<nat> {
    if pc < |code| && code[pc].JumpIfOp? then
      var l := code[pc].location;
      if l in entries && pc + 1 !in entries then Some(pc + 1)
      else if l !in entries && pc + 1 in entries then Some(l)
      else None
    else None
  }

  /** A conditional jump goes to its location when the register holds and on to
      the next opcode otherwise, except that no jump is taken into `entries`; a
      call enters its location and resumes behind itself, unless the procedure at
      the location never returns. */
  function Execute(code: seq<Opcode>, entries: set<nat>, diverging: set<nat>, n: nat, pc: nat, w: seq<bool>): CodeRun {
    if n == 0 then CodeRun([], Before(pc, w))
    else if pc >= |code| then CodeRun([], Outside)
    else
      match code[pc]
      case Body => After([Executed(pc)], Execute(code, entries, diverging, n - 1, pc + 1, w))
      case JumpOp(l) => After([Executed(pc)], Execute(code, entries, diverging, n - 1, l, w))
      case JumpIfOp(c, l) =>
        if Avoiding(code, entries, pc).Some? then
          After([Executed(pc)], Execute(code, entries, diverging, n - 1, Avoiding(code, entries, pc).value, w))
        else if w == [] then CodeRun([Executed(pc), Read(c)], Undecided)
        else After([Executed(pc), Read(c)], Execute(code, entries, diverging, n - 1, if w[0] then l else pc + 1, w[1..]))
      case CallOp(l) =>
        if l in diverging then CodeRun([Executed(pc), Entered(l)], Lost)
        else After([Executed(pc), Entered(l)], Execute(code, entries, diverging, n - 1, pc + 1, w))
      case ReturnOp => CodeRun([Executed(pc)], Returned(w))
      case StopOp => CodeRun([Executed(pc)], Halted(w))
      case TrapOp => CodeRun([Executed(pc)], Failing)
  }

  // ── The same run in blocks ───────────────────────────────────────────────

  /** The opcodes from `from` up to `end`, in order. */
  function Opcodes(from: nat, end: nat): seq<Action>
    decreases end - from
  {
    if from >= end then [] else [Executed(from)] + Opcodes(from + 1, end)
  }

  /** What an event of the graph is in the bytecode. */
  function Meaning(blocks: seq<Block>, e: Event): seq<Action> {
    match e
    case Visit(b) => if b < |blocks| then Opcodes(blocks[b].start, blocks[b].endExclusive) else []
    case Called(f) => if f < |blocks| then [Entered(blocks[f].start)] else []
    case Tested(register) => [Read(register)]
  }

  function Meanings(blocks: seq<Block>, trace: seq<Event>): seq<Action> {
    if trace == [] then [] else Meaning(blocks, trace[0]) + Meanings(blocks, trace[1..])
  }

  function Starts(blocks: seq<Block>, bs: set<BlockId>): set<nat> {
    set b | b in bs && b < |blocks| :: blocks[b].start
  }

  /** The terminator of the block the run visited last. */
  function LastTerminator(blocks: seq<Block>, trace: seq<Event>): Terminator {
    if trace == [] then Unreachable
    else
      var e := trace[|trace| - 1];
      if e.Visit? && e.block < |blocks| then blocks[e.block].terminator else LastTerminator(blocks, trace[..|trace| - 1])
  }

  /** The run of the graph and the run of the bytecode do the same and end the
      same way. */
  ghost predicate Alike(blocks: seq<Block>, g: GraphRun, c: CodeRun) {
    && c.actions == Meanings(blocks, g.trace)
    && var last := LastTerminator(blocks, g.trace);
       match g.end
       case Running(b, rest) => b < |blocks| && c.end == Before(blocks[b].start, rest)
       case Stopped(rest) => (last == Return && c.end == Returned(rest)) || (last == Stop && c.end == Halted(rest))
       case Trapped => ((last == Trap || last == TrapReturn) && c.end == Failing) || (last.Call? && c.end == Lost)
       case Unfed => last.JumpIf? && c.end == Undecided
       case Dead => false
  }

  // ── Blocks that end as the bytecode does ─────────────────────────────────

  /** The terminator does what the opcode at `last` does. */
  ghost predicate StandsFor(code: seq<Opcode>, entries: set<nat>, blocks: seq<Block>, t: Terminator, last: nat)
    requires last < |code|
  {
    match t
    case Jump(x) => x < |blocks| && (code[last] == JumpOp(blocks[x].start) || Avoiding(code, entries, last) == Some(blocks[x].start))
    case Fallthrough(x) => x < |blocks| && code[last] == Body && blocks[x].start == last + 1
    case JumpIf(c, x, y) =>
      && x < |blocks| && y < |blocks| && code[last] == JumpIfOp(c, blocks[x].start) && blocks[y].start == last + 1
      && Avoiding(code, entries, last) == None
    case Call(f, x) => f < |blocks| && x < |blocks| && code[last] == CallOp(blocks[f].start) && blocks[x].start == last + 1
    case Return => code[last] == ReturnOp
    case Stop => code[last] == StopOp
    case Trap => code[last] == TrapOp
    case TrapReturn => code[last] == TrapOp
    case Unreachable => true
  }

  /** The block covers plain opcodes and a last one that its terminator stands
      for. */
  ghost predicate EndsLike(code: seq<Opcode>, entries: set<nat>, blocks: seq<Block>, b: BlockId) {
    && b < |blocks| && blocks[b].start < blocks[b].endExclusive <= |code|
    && (forall pc :: blocks[b].start <= pc < blocks[b].endExclusive - 1 ==> code[pc] == Body)
    && StandsFor(code, entries, blocks, blocks[b].terminator, blocks[b].endExclusive - 1)
  }

  ghost predicate DistinctStarts(blocks: seq<Block>) {
    forall a, b :: 0 <= a < |blocks| && 0 <= b < |blocks| && blocks[a].start == blocks[b].start ==> a == b
  }

  /** Every block ends like the bytecode, and no edge leads to a block that is
      unreachable. */
  ghost predicate Matches(code: seq<Opcode>, entries: set<nat>, blocks: seq<Block>) {
    && DistinctStarts(blocks)
    && (forall b: nat :: b < |blocks| ==> EndsLike(code, entries, blocks, b))
    && forall u: nat, b: nat :: Edge(ComputeSuccessors(blocks), u, b) && b < |blocks| ==> blocks[b].terminator != Unreachable
  }

  /** `n` steps through the graph are a run of the bytecode, at least as long. */
  ghost predicate StepsAs(code: seq<Opcode>, entries: set<nat>, blocks: seq<Block>, diverging: set<BlockId>, n: nat, b: BlockId, w: seq<bool>)
    requires b < |blocks|
  {
    exists k: nat :: k >= n && Alike(blocks, Walk(blocks, diverging, n, b, w),
                                       Execute(code, entries, Starts(blocks, diverging), k, blocks[b].start, w))
  }

  /** From every block, for all outcomes and any number of steps, the graph does
      what the bytecode does. */
  ghost predicate RunsAs(code: seq<Opcode>, entries: set<nat>, blocks: seq<Block>) {
    forall diverging: set<BlockId>, n: nat, b: BlockId, w: seq<bool> ::
      b < |blocks| && blocks[b].terminator != Unreachable ==> StepsAs(code, entries, blocks, diverging, n, b, w)
  }

  // ── One block at a time ──────────────────────────────────────────────────

  lemma {:induction false} ThroughBody(code: seq<Opcode>, entries: set<nat>, diverging: set<nat>, n: nat, pc: nat, last: nat, w: seq<bool>)
    requires pc <= last < |code| && forall i :: pc <= i < last ==> code[i] == Body
    ensures Execute(code, entries, diverging, last - pc + n, pc, w)
         == After(Opcodes(pc, last), Execute(code, entries, diverging, n, last, w))
    decreases last - pc
  {
    if pc < last {
      ThroughBody(code, entries, diverging, n, pc + 1, last, w);
      var r := Execute(code, entries, diverging, n, last, w);
      assert [Executed(pc)] + (Opcodes(pc + 1, last) + r.actions) == ([Executed(pc)] + Opcodes(pc + 1, last)) + r.actions;
    }
  }

  lemma {:induction false} OpcodesSnoc(from: nat, end: nat)
    requires from <= end
    ensures Opcodes(from, end + 1) == Opcodes(from, end) + [Executed(end)]
    decreases end - from
  {
    if from < end {
      OpcodesSnoc(from + 1, end);
    } else {
      assert Opcodes(end + 1, end + 1) == [];
    }
  }

  lemma {:induction false} MeaningsConcat(blocks: seq<Block>, a: seq<Event>, b: seq<Event>)
    ensures Meanings(blocks, a + b) == Meanings(blocks, a) + Meanings(blocks, b)
    decreases |a|
  {
    if a == [] {
      assert a + b == b;
    } else {
      assert (a + b)[1..] == a[1..] + b;
      MeaningsConcat(blocks, a[1..], b);
    }
  }

  lemma {:induction false} LastOfConcat(blocks: seq<Block>, a: seq<Event>, b: seq<Event>)
    requires LastTerminator(blocks, b) != Unreachable
    ensures LastTerminator(blocks, a + b) == LastTerminator(blocks, b)
    decreases |b|
  {
    assert (a + b)[..|a + b| - 1] == a + b[..|b| - 1];
    var e := b[|b| - 1];
    if !(e.Visit? && e.block < |blocks|) {
      LastOfConcat(blocks, a, b[..|b| - 1]);
    }
  }

  /** A block is executed and the run goes on at another. */
  lemma Onward(code: seq<Opcode>, entries: set<nat>, blocks: seq<Block>, diverging: set<nat>, k: nat, b: BlockId, w: seq<bool>,
               then_: seq<Event>, x: BlockId, rest: seq<bool>, g: GraphRun)
    requires EndsLike(code, entries, blocks, b) && x < |blocks|
    requires Execute(code, entries, diverging, k + 1, blocks[b].endExclusive - 1, w)
          == After([Executed(blocks[b].endExclusive - 1)] + Meanings(blocks, then_), Execute(code, entries, diverging, k, blocks[x].start, rest))
    requires Alike(blocks, g, Execute(code, entries, diverging, k, blocks[x].start, rest))
    ensures Alike(blocks, Prepend([Visit(b)] + then_, g),
                    Execute(code, entries, diverging, blocks[b].endExclusive - blocks[b].start + k, blocks[b].start, w))
  {
    hide Execute, Opcodes, StandsFor, Alike, Meanings;
    var start, last := blocks[b].start, blocks[b].endExclusive - 1;
    var r := Execute(code, entries, diverging, k, blocks[x].start, rest);
    ThroughBody(code, entries, diverging, k + 1, start, last, w);
    hide EndsLike;
    VisitFirst(blocks, b, then_);
    OpcodesSnoc(start, last);
    Regrouped(Opcodes(start, last), [Executed(last)], Meanings(blocks, then_), r.actions);
    Prepended(blocks, [Visit(b)] + then_, g, r);
  }

  lemma Regrouped(a: seq<Action>, b: seq<Action>, c: seq<Action>, d: seq<Action>)
    ensures a + ((b + c) + d) == ((a + b) + c) + d
  {
  }

  lemma Prepended(blocks: seq<Block>, before: seq<Event>, g: GraphRun, r: CodeRun)
    requires Alike(blocks, g, r)
    ensures Alike(blocks, Prepend(before, g), After(Meanings(blocks, before), r))
  {
    MeaningsConcat(blocks, before, g.trace);
    if LastTerminator(blocks, g.trace) != Unreachable {
      LastOfConcat(blocks, before, g.trace);
    }
  }

  /** A block is executed and the run ends. */
  lemma EndsHere(code: seq<Opcode>, entries: set<nat>, blocks: seq<Block>, diverging: set<nat>, b: BlockId, w: seq<bool>,
                 then_: seq<Event>, end: CodeEnd)
    requires EndsLike(code, entries, blocks, b)
    requires Execute(code, entries, diverging, 1, blocks[b].endExclusive - 1, w)
          == CodeRun([Executed(blocks[b].endExclusive - 1)] + Meanings(blocks, then_), end)
    ensures Execute(code, entries, diverging, blocks[b].endExclusive - blocks[b].start, blocks[b].start, w)
         == CodeRun(Meanings(blocks, [Visit(b)] + then_), end)
  {
    hide Execute, Opcodes;
    var start, last := blocks[b].start, blocks[b].endExclusive - 1;
    ThroughBody(code, entries, diverging, 1, start, last, w);
    VisitFirst(blocks, b, then_);
    OpcodesSnoc(start, last);
    assert Opcodes(start, last) + ([Executed(last)] + Meanings(blocks, then_))
        == (Opcodes(start, last) + [Executed(last)]) + Meanings(blocks, then_);
  }

  lemma VisitFirst(blocks: seq<Block>, b: BlockId, then_: seq<Event>)
    requires b < |blocks|
    ensures Meanings(blocks, [Visit(b)] + then_) == Opcodes(blocks[b].start, blocks[b].endExclusive) + Meanings(blocks, then_)
  {
    assert ([Visit(b)] + then_)[1..] == then_;
  }

  lemma SingleMeaning(blocks: seq<Block>, e: Event)
    ensures Meanings(blocks, [e]) == Meaning(blocks, e) && Meanings(blocks, []) == []
  {
    assert [e][1..] == [];
  }

  lemma LastVisit(blocks: seq<Block>, b: BlockId, e: Event)
    requires b < |blocks| && !e.Visit?
    ensures LastTerminator(blocks, [Visit(b), e]) == blocks[b].terminator && [Visit(b)] + [e] == [Visit(b), e]
  {
    assert [Visit(b), e][..1] == [Visit(b)];
  }

  lemma StartIn(blocks: seq<Block>, bs: set<BlockId>, f: BlockId)
    requires DistinctStarts(blocks) && f < |blocks|
    ensures blocks[f].start in Starts(blocks, bs) <==> f in bs
  {
  }

  lemma NoEdgeToUnreachable(code: seq<Opcode>, entries: set<nat>, blocks: seq<Block>, b: BlockId, t: BlockId)
    requires Matches(code, entries, blocks) && b < |blocks| && t in Targets(blocks[b].terminator)
    ensures t < |blocks| && blocks[t].terminator != Unreachable
  {
    assert EndsLike(code, entries, blocks, b);
    assert Edge(ComputeSuccessors(blocks), b, t);
  }

  /** Where one step of the graph goes, if it goes on. */
  ghost predicate GoesOn(t: Terminator, diverging: set<BlockId>, w: seq<bool>, x: BlockId, rest: seq<bool>, then_: seq<Event>) {
    match t
    case Jump(target) => x == target && rest == w && then_ == []
    case Fallthrough(target) => x == target && rest == w && then_ == []
    case JumpIf(c, a, b) => w != [] && x == (if w[0] then a else b) && rest == w[1..] && then_ == [Tested(c)]
    case Call(f, continuation) => f !in diverging && x == continuation && rest == w && then_ == [Called(f)]
    case _ => false
  }

  predicate EndsAt(t: Terminator, diverging: set<BlockId>, w: seq<bool>) {
    t.Return? || t.Stop? || t.Trap? || t.TrapReturn? || (t.JumpIf? && w == []) || (t.Call? && t.callee in diverging)
  }

  lemma EndsOrGoesOn(t: Terminator, diverging: set<BlockId>, w: seq<bool>) returns (x: BlockId, rest: seq<bool>, then_: seq<Event>)
    requires t != Unreachable && !EndsAt(t, diverging, w)
    ensures GoesOn(t, diverging, w, x, rest, then_) && x in Targets(t)
  {
    match t
    case Jump(target) => x, rest, then_ := target, w, [];
    case Fallthrough(target) => x, rest, then_ := target, w, [];
    case JumpIf(c, a, b) => x, rest, then_ := if w[0] then a else b, w[1..], [Tested(c)];
    case Call(f, continuation) => x, rest, then_ := continuation, w, [Called(f)];
  }

  /** Where one step of the bytecode goes, if it goes on. */
  ghost predicate OpcodeGoesOn(code: seq<Opcode>, entries: set<nat>, diverging: set<nat>, pc: nat, w: seq<bool>,
                               next: nat, rest: seq<bool>, then_: seq<Action>)
  {
    && pc < |code|
    && match code[pc]
       case Body => next == pc + 1 && rest == w && then_ == []
       case JumpOp(l) => next == l && rest == w && then_ == []
       case JumpIfOp(c, l) =>
         if Avoiding(code, entries, pc).Some? then next == Avoiding(code, entries, pc).value && rest == w && then_ == []
         else w != [] && next == (if w[0] then l else pc + 1) && rest == w[1..] && then_ == [Read(c)]
       case CallOp(l) => l !in diverging && next == pc + 1 && rest == w && then_ == [Entered(l)]
       case _ => false
  }

  lemma ExecuteGoesOn(code: seq<Opcode>, entries: set<nat>, diverging: set<nat>, k: nat, pc: nat, w: seq<bool>,
                      next: nat, rest: seq<bool>, then_: seq<Action>)
    requires OpcodeGoesOn(code, entries, diverging, pc, w, next, rest, then_)
    ensures Execute(code, entries, diverging, k + 1, pc, w) == After([Executed(pc)] + then_, Execute(code, entries, diverging, k, next, rest))
  {
    hide Avoiding;
    assert [Executed(pc)] + [] == [Executed(pc)];
  }

  /** The last opcode of a block goes where its terminator does. */
  lemma LastGoesOn(code: seq<Opcode>, entries: set<nat>, blocks: seq<Block>, diverging: set<BlockId>, b: BlockId, w: seq<bool>,
                   x: BlockId, rest: seq<bool>, then_: seq<Event>)
    requires DistinctStarts(blocks) && EndsLike(code, entries, blocks, b) && x < |blocks|
    requires GoesOn(blocks[b].terminator, diverging, w, x, rest, then_)
    ensures OpcodeGoesOn(code, entries, Starts(blocks, diverging), blocks[b].endExclusive - 1, w, blocks[x].start, rest, Meanings(blocks, then_))
  {
    var t := blocks[b].terminator;
    if t.Call? {
      StartIn(blocks, diverging, t.callee);
    }
    if then_ == [] {
      assert Meanings(blocks, then_) == [];
    } else {
      SingleMeaning(blocks, then_[0]);
      assert then_ == [then_[0]];
    }
    hide Starts, DistinctStarts, Meanings;
  }

  lemma WalkGoesOn(blocks: seq<Block>, diverging: set<BlockId>, n: nat, b: BlockId, w: seq<bool>, x: BlockId, rest: seq<bool>, then_: seq<Event>)
    requires b < |blocks| && n > 0 && GoesOn(blocks[b].terminator, diverging, w, x, rest, then_)
    ensures Walk(blocks, diverging, n, b, w) == Prepend([Visit(b)] + then_, Walk(blocks, diverging, n - 1, x, rest))
  {
  }

  lemma StepsOnward(code: seq<Opcode>, entries: set<nat>, blocks: seq<Block>, diverging: set<BlockId>, n: nat, k: nat, b: BlockId, w: seq<bool>,
                    x: BlockId, rest: seq<bool>, then_: seq<Event>)
    requires DistinctStarts(blocks) && EndsLike(code, entries, blocks, b) && x < |blocks| && n > 0
    requires GoesOn(blocks[b].terminator, diverging, w, x, rest, then_)
    requires Alike(blocks, Walk(blocks, diverging, n - 1, x, rest), Execute(code, entries, Starts(blocks, diverging), k, blocks[x].start, rest))
    ensures Alike(blocks, Walk(blocks, diverging, n, b, w),
                    Execute(code, entries, Starts(blocks, diverging), blocks[b].endExclusive - blocks[b].start + k, blocks[b].start, w))
  {
    hide Alike, Starts, DistinctStarts, StandsFor, Execute, Walk, GoesOn, OpcodeGoesOn, Meanings;
    var d := Starts(blocks, diverging);
    LastGoesOn(code, entries, blocks, diverging, b, w, x, rest, then_);
    ExecuteGoesOn(code, entries, d, k, blocks[b].endExclusive - 1, w, blocks[x].start, rest, Meanings(blocks, then_));
    WalkGoesOn(blocks, diverging, n, b, w, x, rest, then_);
    Onward(code, entries, blocks, d, k, b, w, then_, x, rest, Walk(blocks, diverging, n - 1, x, rest));
  }

  lemma StepsEnd(code: seq<Opcode>, entries: set<nat>, blocks: seq<Block>, diverging: set<BlockId>, n: nat, b: BlockId, w: seq<bool>)
    requires DistinctStarts(blocks) && EndsLike(code, entries, blocks, b) && n > 0
    requires EndsAt(blocks[b].terminator, diverging, w)
    ensures Alike(blocks, Walk(blocks, diverging, n, b, w),
                    Execute(code, entries, Starts(blocks, diverging), blocks[b].endExclusive - blocks[b].start, blocks[b].start, w))
    ensures !Execute(code, entries, Starts(blocks, diverging), blocks[b].endExclusive - blocks[b].start, blocks[b].start, w).end.Before?
  {
    hide Starts;
    var t := blocks[b].terminator;
    var then_: seq<Event> := match t case Call(f, _) => [Called(f)] case JumpIf(c, _, _) => [Tested(c)] case _ => [];
    match t
    case JumpIf(c, _, _) =>
      SingleMeaning(blocks, Tested(c));
      LastVisit(blocks, b, Tested(c));
      EndsHere(code, entries, blocks, Starts(blocks, diverging), b, w, then_, Undecided);
    case Call(f, _) =>
      StartIn(blocks, diverging, f);
      SingleMeaning(blocks, Called(f));
      LastVisit(blocks, b, Called(f));
      EndsHere(code, entries, blocks, Starts(blocks, diverging), b, w, then_, Lost);
    case Return => EndsHere(code, entries, blocks, Starts(blocks, diverging), b, w, [], Returned(w));
    case Stop => EndsHere(code, entries, blocks, Starts(blocks, diverging), b, w, [], Halted(w));
    case _ => EndsHere(code, entries, blocks, Starts(blocks, diverging), b, w, [], Failing);
  }

  /** A run that has ended stays as it is. */
  lemma {:induction false} CodeEnded(code: seq<Opcode>, entries: set<nat>, diverging: set<nat>, n: nat, m: nat, pc: nat, w: seq<bool>)
    requires !Execute(code, entries, diverging, n, pc, w).end.Before? && n <= m
    ensures Execute(code, entries, diverging, m, pc, w) == Execute(code, entries, diverging, n, pc, w)
    decreases n
  {
    if pc < |code| {
      match code[pc]
      case Body => CodeEnded(code, entries, diverging, n - 1, m - 1, pc + 1, w);
      case JumpOp(l) => CodeEnded(code, entries, diverging, n - 1, m - 1, l, w);
      case JumpIfOp(_, l) =>
        if Avoiding(code, entries, pc).Some? {
          CodeEnded(code, entries, diverging, n - 1, m - 1, Avoiding(code, entries, pc).value, w);
        } else if w != [] {
          CodeEnded(code, entries, diverging, n - 1, m - 1, if w[0] then l else pc + 1, w[1..]);
        }
      case CallOp(l) =>
        if l !in diverging {
          CodeEnded(code, entries, diverging, n - 1, m - 1, pc + 1, w);
        }
      case _ =>
    }
  }

  /** Any number of steps through the graph is a run of the bytecode, at least as
      long. */
  lemma {:induction false} GraphRunsCode(code: seq<Opcode>, entries: set<nat>, blocks: seq<Block>, diverging: set<BlockId>, n: nat, b: BlockId, w: seq<bool>)
    returns (k: nat)
    requires Matches(code, entries, blocks) && b < |blocks| && blocks[b].terminator != Unreachable
    ensures k >= n
    ensures Alike(blocks, Walk(blocks, diverging, n, b, w), Execute(code, entries, Starts(blocks, diverging), k, blocks[b].start, w))
    decreases n
  {
    hide Alike, Walk, Execute, Starts, GoesOn, EndsAt;
    assert EndsLike(code, entries, blocks, b);
    var size := blocks[b].endExclusive - blocks[b].start;
    if n == 0 {
      k := n;
      NoSteps(code, entries, blocks, diverging, n, b, w);
    } else if !EndsAt(blocks[b].terminator, diverging, w) {
      var x, rest, then_ := EndsOrGoesOn(blocks[b].terminator, diverging, w);
      NoEdgeToUnreachable(code, entries, blocks, b, x);
      k := GraphRunsCode(code, entries, blocks, diverging, n - 1, x, rest);
      StepsOnward(code, entries, blocks, diverging, n, k, b, w, x, rest, then_);
      k := size + k;
    } else {
      StepsEnd(code, entries, blocks, diverging, n, b, w);
      k := size + n;
      CodeEnded(code, entries, Starts(blocks, diverging), size, k, blocks[b].start, w);
    }
  }

  lemma NoSteps(code: seq<Opcode>, entries: set<nat>, blocks: seq<Block>, diverging: set<BlockId>, n: nat, b: BlockId, w: seq<bool>)
    requires b < |blocks| && n == 0
    ensures Alike(blocks, Walk(blocks, diverging, n, b, w), Execute(code, entries, Starts(blocks, diverging), n, blocks[b].start, w))
  {
    hide Alike, Starts;
    StandsAt(blocks, Walk(blocks, diverging, n, b, w), Execute(code, entries, Starts(blocks, diverging), n, blocks[b].start, w), b, w);
  }

  lemma StandsAt(blocks: seq<Block>, g: GraphRun, c: CodeRun, b: BlockId, w: seq<bool>)
    requires b < |blocks| && g == GraphRun([], Running(b, w)) && c == CodeRun([], Before(blocks[b].start, w))
    ensures Alike(blocks, g, c)
  {
    assert Meanings(blocks, g.trace) == [];
  }

  lemma MatchingRuns(code: seq<Opcode>, entries: set<nat>, blocks: seq<Block>)
    requires Matches(code, entries, blocks)
    ensures RunsAs(code, entries, blocks)
  {
    forall diverging: set<BlockId>, n: nat, b: BlockId, w: seq<bool> | b < |blocks| && blocks[b].terminator != Unreachable
      ensures StepsAs(code, entries, blocks, diverging, n, b, w)
    {
      var k := GraphRunsCode(code, entries, blocks, diverging, n, b, w);
    }
  }

  // ── Classified blocks ────────────────────────────────────────────────────

  lemma StartsDistinct(code: seq<Opcode>, ranges: seq<(nat, nat)>, index: map<nat, BlockId>, blocks: seq<Block>)
    requires Classified(code, ranges, index, blocks)
    ensures DistinctStarts(blocks)
  {
    forall a, b | 0 <= a < |blocks| && 0 <= b < |blocks| && blocks[a].start == blocks[b].start
      ensures a == b
    {
      assert index[ranges[a].0] == a && index[ranges[b].0] == b;
    }
  }

  ghost predicate FindsStarts(blocks: seq<Block>, index: map<nat, BlockId>) {
    forall i :: i in index ==> index[i] < |blocks| && blocks[index[i]].start == i
  }

  lemma TerminatorStands(code: seq<Opcode>, index: map<nat, BlockId>, blocks: seq<Block>, t: Terminator, last: nat)
    requires last < |code| && FindsStarts(blocks, index) && FlowTerminator(code, index, last) == Some(t)
    ensures StandsFor(code, {}, blocks, t, last) && t != Unreachable && t != TrapReturn
    ensures t.Jump? <==> code[last].JumpOp?
  {
  }

  /** The terminator of a block stands for its last opcode. */
  lemma ClassifiedEnds(code: seq<Opcode>, ranges: seq<(nat, nat)>, index: map<nat, BlockId>, blocks: seq<Block>, b: BlockId)
    requires Classified(code, ranges, index, blocks) && b < |blocks|
    ensures EndsLike(code, {}, blocks, b) && blocks[b].terminator != Unreachable && blocks[b].terminator != TrapReturn
    ensures blocks[b].terminator.Jump? <==> code[blocks[b].endExclusive - 1].JumpOp?
  {
    hide FlowTerminator, StandsFor;
    var last := ranges[b].1 - 1;
    assert FlowTerminator(code, index, last) == Some(blocks[b].terminator);
    assert FindsStarts(blocks, index);
    forall pc | ranges[b].0 <= pc < last
      ensures code[pc] == Body
    {
      InsideBlock(code, ranges, b, pc);
    }
    TerminatorStands(code, index, blocks, blocks[b].terminator, last);
  }

  /** The blocks do what the bytecode does, whatever the outcomes. */
  lemma ClassifiedRuns(code: seq<Opcode>, ranges: seq<(nat, nat)>, index: map<nat, BlockId>, blocks: seq<Block>)
    requires Classified(code, ranges, index, blocks)
    ensures Matches(code, {}, blocks) && RunsAs(code, {}, blocks)
  {
    StartsDistinct(code, ranges, index, blocks);
    forall b: nat | b < |blocks|
      ensures EndsLike(code, {}, blocks, b) && blocks[b].terminator != Unreachable
    {
      ClassifiedEnds(code, ranges, index, blocks, b);
    }
    hide EndsLike, Classified, RunsAs;
    MatchingRuns(code, {}, blocks);
  }

  /** Every call of the bytecode ends a block. */
  lemma CallEndsBlock(code: seq<Opcode>, ranges: seq<(nat, nat)>, index: map<nat, BlockId>, blocks: seq<Block>, j: nat) returns (c: BlockId)
    requires Classified(code, ranges, index, blocks) && j < |code| && code[j].CallOp?
    ensures c < |blocks| && blocks[c].endExclusive == j + 1
  {
    c := BlockOf(code, ranges, j);
    if j + 1 < ranges[c].1 {
      InsideBlock(code, ranges, c, j);
    }
  }

  lemma CallStandsFor(code: seq<Opcode>, blocks: seq<Block>, t: Terminator, last: nat)
    requires last < |code| && StandsFor(code, {}, blocks, t, last) && t != Unreachable
    ensures t.Call? <==> code[last].CallOp?
    ensures t.Call? ==> t.callee < |blocks| && code[last].location == blocks[t.callee].start
  {
  }

  /** The blocks that are called start where the procedures do. */
  lemma CalledStarts(code: seq<Opcode>, ranges: seq<(nat, nat)>, index: map<nat, BlockId>, blocks: seq<Block>, m: BlockId)
    requires Classified(code, ranges, index, blocks) && DistinctStarts(blocks) && m < |blocks|
    ensures IsCallTarget(blocks, m, |blocks|) <==> blocks[m].start in CallLocations(code)
  {
    hide Classified, StandsFor;
    if IsCallTarget(blocks, m, |blocks|) {
      var c: nat :| c < |blocks| && blocks[c].terminator.Call? && blocks[c].terminator.callee == m;
      ClassifiedEnds(code, ranges, index, blocks, c);
      CallStandsFor(code, blocks, blocks[c].terminator, blocks[c].endExclusive - 1);
      assert code[blocks[c].endExclusive - 1].location == blocks[m].start;
    }
    if blocks[m].start in CallLocations(code) {
      var j: nat :| j < |code| && code[j].CallOp? && code[j].location == blocks[m].start;
      var c := CallEndsBlock(code, ranges, index, blocks, j);
      ClassifiedEnds(code, ranges, index, blocks, c);
      CallStandsFor(code, blocks, blocks[c].terminator, j);
      assert blocks[c].terminator.callee == m;
    }
  }
}
