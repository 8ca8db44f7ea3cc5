# A verified model of the ACIR-to-LLZK compiler

The compiler turns ACIR circuits and Brillig bytecode into LLZK. Most of its code emits operations, so the model keeps the
value each emitted sequence computes: a field element is an integer below the BN254 prime, and `umod`, `uintdiv`, shifts
and `bit_and` act on that canonical integer. What is emitted as a constraint is modelled as the condition under which it
accepts. Four parts are covered.

**Control-flow recovery.** Bytecode is split into blocks (`BlockSplitting`), two rewrites are applied and procedures are
found (`Rewrites`), and the graph is analysed: reverse postorder (`Postorder`), dominators by the Cooper-Harvey-Kennedy
iteration (`DomTree`, `Rooted`), post-dominators (`PostDominance`), natural loops (`Loops`) and always-trapping blocks
(`Divergence`). `CfgBuild` puts the analyses in order and states `ValidCfg`, what every accepted graph satisfies. Each
analysis is specified by paths, not by the algorithm: dominance is "lies on every path from every root". `BytecodeRuns` gives
the bytecode a meaning driven by the outcomes of its conditional jumps and proves that split and rewritten blocks run as it
does.

**Structuring.** `StructureTree` gives the tree of ifs and loops and the graph a meaning each: what a run does for a sequence
of branch outcomes, as a trace of blocks executed, procedures called and registers tested. `Simulation` says when a stretch
of the tree does what the graph does, `RegionFacts`, `RegionWalk` and `RegionSteps` keep that along the walk,
`RegionProgress` shows that the walk goes up in reverse postorder, `LoopShapes` and `Walker` are the classification and the
walker as they are written, and `Structurer` concludes. The graphs covered are those whose exit edges, in the live caller
view, all start at a conditional natural header (`RegionFacts.Structurable`; loop-free graphs are included). For these, the
function is accepted and tree and graph agree on every run; `TreeRuns` carries that down to the bytecode. For all graphs,
escape-flag slots are allocated in order and breaks stand at the tail of the innermost flagged loop (`EscapeFlags`). A loop
with an escape flag whose body iterates agrees with the graph on exactly the outcomes on which the graph does not break: a
break is followed by one more run of the header, and since flags are cleared only at the start of a function, a loop left by
a break and entered again skips its body (`FlaggedLoops`). `TailBreaks` shows that the walker builds such bodies when their
tests, assertions aside, join at the header or at the exit, and accepts these loops.

**Multi-limb and curve arithmetic.** `Limbs`, `Solinas`, `CurveOrders`, `Barrett` and `Inversion` are the 4x64-bit limb tower
of the ECDSA helpers, each proved equal to integer arithmetic with every intermediate below the prime. `Jacobian` proves the
point formulas against the affine chord-and-tangent law of section 2.2.1 of SEC 1, `PointLimbs` ties the limb code to the
formulas, and `Shamir` proves the joint scalar multiplication, with the exact case in which it misses infinity.
`CurveConstants` proves that the constants are the primes, half orders and points they stand for. `Verify` builds the table
and proves that the verdict on a signature is right for all inputs, that case included. `ModArith` supplies congruences,
Euclid's lemma and Fermat's little theorem.

**Witnesses and gadgets.** `BlockWriter`, `Expressions` and `AssertZero` are the gate solver against its constraint;
`Memory` the one-hot memory gadgets against plain arrays over whole runs; `Gates` and `Msm` the gated scalar decomposition;
`IntOps` and `ToRadix` the Brillig integer operations and radix decomposition; `Blake3` the chaining-value stack against
the recursive tree of section 2.1 of the BLAKE3 specification, with the compression function uninterpreted.

Code that changes state step by step is a method, or a class with fields (`Walker.State`, `BlockWriters.BlockWriter`,
`ToRadix.Ram`), proved against specification functions and predicates; code made of expressions is functions with lemmas.

Hypotheses that are not proved, and appear as preconditions: primality of the field prime and of the curve moduli, and that
the points of a curve form an abelian group under the chord-and-tangent sum (`Shamir.CurveGroup`).

Where the code and its comments differ, the model follows the code. The comment on natural loops speaks of blocks
"dominated by" the header (`acir2llzk/src/brillig/cfg/loops.rs:5-8`); the code walks backwards without asking about
dominance, and `Loops.HeaderDominatesBody` proves that on reachable blocks it comes to the same. The comment on Barrett
multiplication promises an estimate off by at most two for a generic 256-bit modulus
(`acir2llzk/src/blackboxes/ecdsa/modular.rs:183-185`); `Barrett.ThreeTooLow` shows a modulus for which it is off by three,
and `Barrett.MulModBarrett` states when the product is right.

## Model

| member | source | states |
|---|---|---|
| `Structurer.StructureFunction` | acir2llzk/src/brillig/structurer/mod.rs:132-149 | If every exit edge of every loop starts at its conditional natural header, then with fuel of three units a block (plus six) every body is accepted without panic or rejection, and for every sequence of branch outcomes every body tree visits the same blocks, calls the same procedures and tests the same registers in the same order as the graph and ends alike. For any graph, a returned function has well-placed escape flags |
| `Structurer.AgreesOn` | acir2llzk/src/brillig/structurer/walker.rs:78-210 | What a simulation means for complete runs: the tree finishes iff the graph stops, with equal traces and unread outcomes; it waits only where the graph waits; a trapping graph run has failed in the tree after a prefix of the same events; a failing tree means the graph traps on every long enough continuation |
| `Structurer.EntryReady` | acir2llzk/src/brillig/structurer/walker.rs:63-70 | An entry lies in no loop but its own, so its walk starts with enough fuel |
| `TreeRuns.FunctionRunsCode` | acir2llzk/src/brillig/structurer/mod.rs:132-149 | From the bytecode to the trees: every body that agrees with its graph executes the opcodes, tests the registers and enters the procedures of its bytecode, in the same order and on every sequence of outcomes, and ends alike; the main body starts at the first opcode |
| `TreeRuns.TreeAgreesWithCode` | acir2llzk/src/brillig/cfg/mod.rs:60-82 | One body on one sequence of outcomes: the tree finishes iff the bytecode returns or stops, with the same outcomes left; where the bytecode traps the tree has failed, and where the tree fails the bytecode fails on every long enough continuation |
| `Walker.State.constructor` | acir2llzk/src/brillig/structurer/walker.rs:40-59 | The two indices find exactly the loop of every header and the procedure of every entry |
| `Walker.State.StructureOneBody` | acir2llzk/src/brillig/structurer/walker.rs:63-70 | Restarts slot numbering, so a body uses slots 0 up to its own count; result as for a region walked to its leaves |
| `Walker.State.StructureRegion` | acir2llzk/src/brillig/structurer/walker.rs:78-210 | On a covered region: no panic, and the nodes run from the entry to the join, to the enclosing header or out of the body exactly as the graph does; with the budget of the entry it answers. On every graph: the slots allocated are consecutive and breaks name the innermost flag |
| `Walker.State.Turn` | acir2llzk/src/brillig/structurer/walker.rs:108-208 | One turn of the walk: its nodes run to the next block, which lies higher in the numbering or ends the region, or to the end of the region |
| `Walker.State.StraightTurn` | acir2llzk/src/brillig/structurer/walker.rs:133-208 | Jumps, calls, exits and traps: the next block is the one the graph goes to, a diverging call or trap always fails, an exit ends the body, and an unreachable block is never met in a covered region |
| `Walker.State.StructureCond` | acir2llzk/src/brillig/structurer/walker.rs:141-173 | A conditional jump continues at its immediate post-dominator if it has one, and otherwise as its divergent arms allow |
| `Walker.State.StructureJoiningCond` | acir2llzk/src/brillig/structurer/walker.rs:214-235 | Both arms are walked up to the join and together with the test run as the graph does from the jump to the join |
| `Walker.State.StructureDivergingCond` | acir2llzk/src/brillig/structurer/walker.rs:241-293 | Without a join, a single divergent arm always fails and the walk goes on at the other arm; if both arms end alike the region is complete |
| `Walker.State.StructureLoop` | acir2llzk/src/brillig/structurer/walker.rs:298-361 | Classifies the loop and builds it; a covered loop is classified and walked within the budget, and runs from the header to the exit destination |
| `Walker.State.StructureShapedLoop` | acir2llzk/src/brillig/structurer/walker.rs:298-361 | The loop node and the trampolines behind it run from the header to the exit destination of a covered loop, which gets no flag; any flag taken is the next free slot. A loop with inner exits whose tests all join at the header or at the exit, assertions aside, is never rejected: breaks are emitted where its walk meets the exit, and its node agrees with the graph on exactly the outcomes on which the graph does not break |
| `TailBreaks.TailBodyOf` | acir2llzk/src/brillig/structurer/loop_shape.rs:35-135 | The blocks between the body entry and the header or exit, along live edges, lead nowhere else |
| `TailBreaks.StepsBreak` | acir2llzk/src/brillig/structurer/walker.rs:86-104 | Where the walk stands at the exit destination a break may be emitted: it ends the body |
| `TailBreaks.StepsOn` | acir2llzk/src/brillig/structurer/walker.rs:78-210 | The nodes of such a body compose turn by turn: none before the header is reached can have broken out |
| `TailBreaks.StepIf` | acir2llzk/src/brillig/structurer/walker.rs:141-173 | A test whose arms each lead to the header or break ends the body |
| `TailBreaks.LeavingArmApart` | acir2llzk/src/brillig/structurer/loop_shape.rs:137-160 | The arm by which the header leaves is none of the blocks of the body: it is the exit, or a trampoline only the header leads to |
| `Walker.State.AllocEscapeFlag` | acir2llzk/src/brillig/structurer/walker.rs:363-367 | Slots are handed out in ascending order |
| `Walker.MoveAssert` | acir2llzk/src/brillig/structurer/walker.rs:381-401 | The trap peephole: asserting the condition and going on at the then arm is what the graph does, because the dropped else arm fails on every long enough run |
| `Simulation.SimulatesThen` | acir2llzk/src/brillig/structurer/mod.rs:24-88 | Stretches of the tree compose: a run to a block followed by a run from it |
| `Simulation.SimulatesIf` | acir2llzk/src/brillig/structurer/walker.rs:228-234 | A test and two branches that reach one exit simulate the conditional jump |
| `Simulation.SimulatesLoop` | acir2llzk/src/brillig/structurer/walker.rs:345-360 | A loop whose body runs from the inside arm back to the header simulates the graph from the header to the outside arm, for any number of iterations and either polarity |
| `Simulation.SimulatesAssert` | acir2llzk/src/brillig/structurer/walker.rs:122-131 | If the else arm always fails, the assertion simulates the jump |
| `Simulation.DivergentFails` | acir2llzk/src/brillig/cfg/divergence.rs:13-53 | A block of the always-divergent set fails in the graph after at most its rank of further outcomes |
| `Simulation.SimulatesCall` | acir2llzk/src/brillig/structurer/walker.rs:174-185 | A call into a procedure that returns goes on at its continuation; one into a diverging procedure fails |
| `StructureTree.RunConcat` | acir2llzk/src/brillig/structured_translator.rs:116-126 | Nodes run in sequence: what follows runs on the outcomes the first part leaves |
| `StructureTree.WalkEnded` | acir2llzk/src/brillig/cfg/mod.rs:179-216 | A graph run that has ended does not change with more steps |
| `RegionFacts.LiveReachesExit` | acir2llzk/src/brillig/cfg/mod.rs:105-118 | Every reachable block that does not always trap reaches an exit along live edges, so the post-dominator table covers it |
| `RegionFacts.HeaderPostDominates` | acir2llzk/src/brillig/structurer/loop_shape.rs:35-135 | A header that is the only way out post-dominates its whole body |
| `RegionFacts.DivergentBlockFails` | acir2llzk/src/brillig/cfg/divergence.rs:13-53 | A block outside the live view fails on every long enough sequence of outcomes |
| `RegionFacts.DeadEndDiverges` | acir2llzk/src/brillig/cfg/divergence.rs:13-53 | A block that goes nowhere and neither returns nor stops is in the always-trapping set |
| `RegionFacts.NonReturningDiverges` | acir2llzk/src/brillig/cfg/divergence.rs:147-156 | A call entry that starts with an orphan-return trap belongs to a procedure without a returning block |
| `RegionFacts.EffectiveOnPaths` | acir2llzk/src/brillig/structurer/loop_shape.rs:167-209 | The effective header lies on every live path from the natural header to an exit |
| `RegionFacts.ExitsMeet` | acir2llzk/src/brillig/structurer/loop_shape.rs:100-135 | The exits of an accepted loop meet: one block lies on every live path from any exit edge and from the exit destination |
| `RegionWalk.StepOk` | acir2llzk/src/brillig/structurer/walker.rs:87-140 | A live edge inside a region stays in the enclosing loop and under the join that ends the region |
| `RegionWalk.ArmsOk` | acir2llzk/src/brillig/structurer/walker.rs:214-235 | Both arms of a joining jump are regions that end at the join, and the join lies in the surrounding region |
| `RegionWalk.JoinInLoop` | acir2llzk/src/brillig/structurer/walker.rs:146-149 | Inside a loop two arms join in the body: at the header, or at a block the header can avoid |
| `RegionWalk.NoJoinMeansLeave` | acir2llzk/src/brillig/structurer/walker.rs:150-154 | A live jump without a join is enclosed by no join and no loop |
| `RegionSteps.ExitChain` | acir2llzk/src/brillig/structurer/walker.rs:353-360 | The trampolines behind a loop run to the exit destination, and none of them ends the surrounding region |
| `RegionSteps.LoopBodyOk` | acir2llzk/src/brillig/structurer/walker.rs:298-343 | The body of a header and what follows its exit are regions again; the exit destination lies outside the loop |
| `RegionProgress.EdgeUp` | acir2llzk/src/brillig/structurer/walker.rs:87-140 | Every edge the walk follows goes up in reverse postorder, unless it leads to the header that ends the region or closes a one-block loop |
| `RegionProgress.JoinOnward` | acir2llzk/src/brillig/structurer/walker.rs:214-235 | A join is numbered above its jump unless it is the enclosing header, and lies in no loop the jump is not in |
| `RegionProgress.ExitOnward` | acir2llzk/src/brillig/structurer/walker.rs:353-360 | Behind a loop the walk goes on above its header |
| `RegionProgress.LoopLeavesOnce` | acir2llzk/src/brillig/structurer/loop_shape.rs:115-135 | With more fuel than blocks the walks of the classification end, and all exit edges are the exit arm |
| `RegionProgress.JoinPostDoms` | acir2llzk/src/brillig/structurer/loop_shape.rs:213-221 | Each step of the convergence walk leaves strictly fewer post-dominators |
| `RegionProgress.CanonicalFound` | acir2llzk/src/brillig/structurer/loop_shape.rs:228-236 | Trampolines go up in the numbering, so the walk along them ends, at a live block with no new post-dominators |
| `LoopShapes.WalkToCanonical` | acir2llzk/src/brillig/structurer/loop_shape.rs:228-236 | The chain returned runs through single-predecessor single-successor jumps from the start to the first block that is none |
| `LoopShapes.WalkToConvergence` | acir2llzk/src/brillig/structurer/loop_shape.rs:213-221 | Ends at a block that is neither a trampoline nor a conditional jump with a post-dominator |
| `LoopShapes.FindEffectiveHeader` | acir2llzk/src/brillig/structurer/loop_shape.rs:167-209 | The block found is reached from the header by passing tests (to the join of two arms in the loop, or beside an arm that always traps) and is passed no further; a header that decides the exit itself is its own effective header |
| `LoopShapes.SkippedArm` | acir2llzk/src/brillig/structurer/loop_shape.rs:174-204 | A test is refused iff both arms stay in the loop without joining in it |
| `LoopShapes.DecidesIffNotPassed` | acir2llzk/src/brillig/structurer/loop_shape.rs:167-209 | A header with one arm in the body decides the exit iff it is passed to no other test |
| `LoopShapes.CollectExitEdges` | acir2llzk/src/brillig/structurer/loop_shape.rs:250-260 | Exactly the edges from the body to blocks outside it that do not always trap |
| `LoopShapes.GetLoopShape` | acir2llzk/src/brillig/structurer/loop_shape.rs:35-135 | The shape follows the two arms of the effective header, its exit edges are the exact set and all converge where the exit destination does; the exit destination ends the trampolines behind the exit arm; the arm by which a test leaves can go on, unless the header is its whole body; a loop left by one arm only is accepted |
| `EscapeFlags.LoopFlagged` | acir2llzk/src/brillig/structurer/escape_flag.rs:18-47 | A loop whose breaks stand at the tail of its body keeps slots in order and confines its flag to its body |
| `EscapeFlags.FlaggedConcat` | acir2llzk/src/brillig/structurer/walker.rs:363-367 | Two stretches that use adjacent slot intervals use their union, in order |
| `EscapeFlags.NothingBehindBreak` | acir2llzk/src/brillig/structurer/escape_flag.rs:18-47 | In an accepted body nothing runs behind a break: while nodes are left to run, the flag of the loop is not set, whatever the outcomes |
| `FlaggedLoops.FlaggedRuns` | acir2llzk/src/brillig/translator.rs:289-394 | A loop with an escape flag, entered with the flag clear, whose body iterates, for any number of iterations: if the graph breaks on the outcomes, it stands at the exit while the tree runs the header and reads its condition once more; otherwise the tree does what the graph does, in every way a run can end |
| `FlaggedLoops.AgreesUnlessBroken` | acir2llzk/src/brillig/translator.rs:366-394 | Such a loop does what the graph does if and only if the graph, on the outcomes given, does not first leave the loop for the exit from a block other than the header; if it does, the events of the tree are never first events of the graph; the flag of a finished run is set exactly then |
| `FlaggedLoops.IteratesThen` | acir2llzk/src/brillig/structurer/mod.rs:24-88 | What it takes to iterate composes: a stretch that cannot break, followed by anything that iterates |
| `FlaggedLoops.IteratesIf` | acir2llzk/src/brillig/structurer/walker.rs:228-234 | A test iterates when both arms do: each goes on to the same place, or sets the flag where the graph stands at the exit |
| `FlaggedLoops.IteratesAssert` | acir2llzk/src/brillig/structurer/walker.rs:122-131 | An assertion goes on at its then arm, if the dropped arm always fails without reaching the exit |
| `FlaggedLoops.IteratesCall` | acir2llzk/src/brillig/structurer/walker.rs:174-185 | A call goes on at its continuation, or fails inside the loop |
| `FlaggedLoops.IteratesLoop` | acir2llzk/src/brillig/structurer/walker.rs:345-360 | An inner loop without a flag goes on behind its condition, for any number of iterations |
| `FlaggedLoops.SkippedOnReentry` | acir2llzk/src/brillig/translator.rs:250-281 | Flags are cleared once, at the start of a function: a loop left by a break and entered again, after whatever ran in between, skips the body that the graph enters |
| `FlaggedLoops.TwoBreaksIterate` | acir2llzk/src/brillig/structurer/tests.rs:186-229 | The loop with two breaks of the test suite has a body that iterates |
| `FlaggedLoops.HeaderTwice` | acir2llzk/src/brillig/structurer/tests.rs:186-229 | On the outcome of its first break the graph breaks; it visits the header once, the tree twice |
| `CfgBuild.Build` | acir2llzk/src/brillig/cfg/mod.rs:60-135 | An accepted graph does what the bytecode does in which no conditional jump is taken into a procedure; it has exact dominators, post-dominators, loops, divergent set, procedures and views, and is reducible; an error has one of the four stated causes in the bytecode |
| `CfgBuild.ParseBlocks` | acir2llzk/src/brillig/cfg/mod.rs:60-63 | Splitting and classification succeed iff control stays inside the bytecode, and then the graph does what the bytecode does |
| `CfgBuild.FinalRuns` | acir2llzk/src/brillig/cfg/divergence.rs:61-143 | The two rewrites keep that: the final graph does what the bytecode does in which a conditional jump with one arm in a procedure takes the other |
| `BytecodeRuns.ClassifiedRuns` | acir2llzk/src/brillig/cfg/block_splitting.rs:80-113 | For all blocks, all outcomes and any number of steps, a run of the split blocks is a run of the bytecode from the first opcode of the block: the same opcodes, the same registers tested with the location on true and the next opcode on false, the same procedures entered and left behind the call, and the same end, with return, stop and trap told apart |
| `BytecodeRuns.GraphRunsCode` | acir2llzk/src/brillig/flow/jump_if.rs:18-36 | The induction over the steps: each block whose terminator stands for its last opcode is a stretch of the run |
| `BytecodeRuns.ClassifiedEnds` | acir2llzk/src/brillig/flow/jump_if.rs:18-36 | A block covers plain opcodes and one last opcode, and its terminator names the blocks that start at the targets of that opcode, each in its role |
| `BytecodeRuns.CalledStarts` | acir2llzk/src/brillig/cfg/utils.rs:5-26 | The blocks that are called are those that start at a call location |
| `CfgBuild.BuildBlocks` | acir2llzk/src/brillig/cfg/mod.rs:60-82 | The rewritten blocks with both adjacency lists still inverse; an error means control leaves the bytecode or enters a procedure by other means than a call |
| `CfgBuild.AnalyseCalls` | acir2llzk/src/brillig/cfg/mod.rs:84-97 | The caller view and one procedure for every call target; an error exhibits a malformed one |
| `CfgBuild.ComputeNonReturningCalls` | acir2llzk/src/brillig/cfg/divergence.rs:147-156 | Exactly the call targets whose entry block never returns |
| `DomTrees.BuildFromRpo` | acir2llzk/src/brillig/cfg/dom_tree.rs:84-120 | The fixed point is reached within n+1 passes and holds exactly the immediate dominators, for any reverse postorder |
| `DomTrees.Intersect` | acir2llzk/src/brillig/cfg/dom_tree.rs:151-166 | The two cursors never walk off their chains and meet at the lowest common entry of both |
| `DomTrees.NextOnPaths` | acir2llzk/src/brillig/cfg/dom_tree.rs:96-117 | After k passes every link lies on all paths with fewer than k retreating edges |
| `DomTrees.LatePassStable` | acir2llzk/src/brillig/cfg/dom_tree.rs:96-117 | From pass n on nothing changes any more |
| `DomTrees.StableIsIdom` | acir2llzk/src/brillig/cfg/dom_tree.rs:96-120 | A stable table holds immediate dominators with respect to all paths |
| `Postorder.ReversePostorder` | acir2llzk/src/brillig/cfg/dom_tree.rs:168-174 | Exactly the reachable nodes, once each, entry first, every other node after one of its predecessors |
| `Postorder.DfsPostorder` | acir2llzk/src/brillig/cfg/dom_tree.rs:176-190 | A call marks and emits the nodes newly reachable through unvisited ones |
| `Rooted.BuildWithSuperEntry` | acir2llzk/src/brillig/cfg/dom_tree.rs:11-37 | With a virtual entry before all roots, the table holds exactly the immediate dominators over paths from any root, and numbers exactly the reachable blocks |
| `Rooted.BuildPost` | acir2llzk/src/brillig/cfg/dom_tree.rs:50-82 | The same over the reversed graph from all exits |
| `PostDominance.ValidFromReversed` | acir2llzk/src/brillig/cfg/dom_tree.rs:50-82 | Dominance in the reversed graph is post-dominance: lying on every path to every exit |
| `Rooted.IsDominator` | acir2llzk/src/brillig/cfg/dom_tree.rs:130-148 | True iff the block is reachable and the other lies on every path from every root to it |
| `Rooted.CheckReducible` | acir2llzk/src/brillig/cfg/dom_tree.rs:197-223 | True iff every edge that does not go up the numbering leads to a dominator of its source |
| `Loops.DetectNaturalLoops` | acir2llzk/src/brillig/cfg/loops.rs:9-49 | One loop for every target of a back edge, in order, its body exactly the blocks that reach a back-edge source without passing the header |
| `Loops.LoopBody` | acir2llzk/src/brillig/cfg/loops.rs:26-44 | The reverse walk finds exactly the blocks with a header-free path to a source |
| `Loops.BackEdgeSources` | acir2llzk/src/brillig/cfg/loops.rs:14-24 | Exactly the reachable predecessors the block dominates |
| `Loops.HeaderDominatesBody` | acir2llzk/src/brillig/cfg/loops.rs:9-49 | A header dominates every block of its body |
| `Loops.LoopsNested` | acir2llzk/src/brillig/cfg/loops.rs:9-49 | Two loops with different headers that share a reachable block are nested |
| `Loops.CycleHasHeader` | acir2llzk/src/brillig/cfg/dom_tree.rs:197-223 | After the reducibility check every reachable cycle contains a detected header |
| `Divergence.ComputeAlwaysDivergent` | acir2llzk/src/brillig/cfg/divergence.rs:13-53 | The worklist ends, no counter underflows on repeated edges, and the result is exactly the blocks all of whose paths end in trapping leaves |
| `Divergence.LeastClosed` | acir2llzk/src/brillig/cfg/divergence.rs:13-53 | The set is closed under "non-empty successors all in the set" and contained in every such set that holds the leaves |
| `Divergence.DivergesIffPathsEnd` | acir2llzk/src/brillig/cfg/divergence.rs:13-53 | Membership means: all forward paths are bounded and every maximal one ends in a trapping leaf |
| `Divergence.CountingStep` | acir2llzk/src/brillig/cfg/divergence.rs:30-50 | Processing a block lowers the counter of each predecessor by the multiplicity of the edge, and pushes it exactly when it reaches zero |
| `Views.InvertEdges` | acir2llzk/src/brillig/cfg/utils.rs:28-37 | Each edge is reversed with its multiplicity |
| `Views.ExitsLeadNowhere` | acir2llzk/src/brillig/cfg/utils.rs:5-26 | The exits are exactly the terminators without targets, except that of a block never entered |
| `Views.LiveView` | acir2llzk/src/brillig/cfg/mod.rs:105-115 | Keeps exactly the edges whose target does not always trap |
| `Views.UniqueCallTargets` | acir2llzk/src/brillig/cfg/utils.rs:68-76 | The call targets, ascending and without repetition |
| `Rewrites.RewriteTrapReturnPattern` | acir2llzk/src/brillig/cfg/divergence.rs:61-79 | Retags exactly a trap followed by a one-opcode return without predecessors, and that return |
| `Rewrites.RetaggedSuccessors` | acir2llzk/src/brillig/cfg/divergence.rs:61-79 | Retagging changes no edge |
| `Rewrites.RewriteDeadJumpIf` | acir2llzk/src/brillig/cfg/divergence.rs:89-143 | Fails iff some block that is no call jumps only into procedures; otherwise blocks, successors and predecessors agree again after the dead arms are dropped |
| `Rewrites.RefusedIff` | acir2llzk/src/brillig/cfg/divergence.rs:89-143 | A terminator has no arm left iff all its targets are call entries and it is not a call |
| `Rewrites.ProcedureBody` | acir2llzk/src/brillig/cfg/procedures.rs:76-88 | Exactly the blocks reachable from the entry in the caller view |
| `Rewrites.IdentifyProcedures` | acir2llzk/src/brillig/cfg/procedures.rs:11-74 | Accepts iff every call target has only proper leaves and exactly one return or exit block or always fails; returns body and return block of each |
| `BlockSplitting.SplitBlocks` | acir2llzk/src/brillig/cfg/block_splitting.rs:27-65 | Succeeds iff the bytecode is non-empty and every target lies in it; the ranges partition it, start exactly at targets and behind control flow |
| `BlockSplitting.IndexRanges` | acir2llzk/src/brillig/cfg/block_splitting.rs:69-75 | Maps each start to the number of its range, and nothing else |
| `BlockSplitting.Classify` | acir2llzk/src/brillig/cfg/block_splitting.rs:80-113 | Succeeds iff every range has a terminator; block and range correspond one to one (`BytecodeRuns.ClassifiedRuns` says what the terminators do) |
| `BlockSplitting.AcceptedIff` | acir2llzk/src/brillig/cfg/block_splitting.rs:80-113 | Every block has a terminator iff control never runs off the bytecode |
| `BlockSplitting.EdgesAreSteps` | acir2llzk/src/brillig/cfg/utils.rs:5-26 | Block edges are exactly the bytecode steps from the last opcode of a block to the first of another |
| `BlockSplitting.StepSimulated` | acir2llzk/src/brillig/cfg/block_splitting.rs:27-113 | Every step of the program counter stays in its block or follows a block edge to a block start |
| `Limbs.AddWithCarry` | acir2llzk/src/blackboxes/ecdsa/limbs.rs:29-48 | Four limbs and a carry equal the sum exactly, no felt wraps |
| `Limbs.SubWithBorrow` | acir2llzk/src/blackboxes/ecdsa/limbs.rs:53-77 | Limbs and borrow equal the difference exactly, for any number of limbs |
| `Limbs.LtBool` | acir2llzk/src/blackboxes/ecdsa/limbs.rs:80-90 | One iff the first value is below the second |
| `Limbs.EqBool` | acir2llzk/src/blackboxes/ecdsa/limbs.rs:95-113 | One iff the values are equal: the sum of four squared differences cannot wrap to zero |
| `Limbs.MulWide` | acir2llzk/src/blackboxes/ecdsa/limbs.rs:117-147 | Eight limbs of the exact 512-bit product; no column sum reaches the prime |
| `Limbs.SelectLimbs` | acir2llzk/src/blackboxes/ecdsa/limbs.rs:162-181 | The arithmetic select returns the chosen limbs |
| `Limbs.SplitLow64` | acir2llzk/src/blackboxes/ecdsa/limbs.rs:18-27 | Low limb and rest recompose the value |
| `Limbs.ValInjective` | acir2llzk/src/blackboxes/ecdsa/limbs.rs:95-113 | Proper limbs are determined by their value |
| `Solinas.Add4PlusN` | acir2llzk/src/blackboxes/ecdsa/modular.rs:35-61 | Five limbs hold the sum, the last carry is zero |
| `Solinas.SolinasRound` | acir2llzk/src/blackboxes/ecdsa/modular.rs:64-91 | One round is low part plus c times high part, exactly, in five limbs |
| `Solinas.SolinasShrinks` | acir2llzk/src/blackboxes/ecdsa/modular.rs:97-132 | For every 512-bit value the spill falls below 2^34, then to at most one, then to zero, and the residue mod p never changes |
| `Solinas.ReduceModP` | acir2llzk/src/blackboxes/ecdsa/modular.rs:97-132 | The reduction is x mod p for every 512-bit x |
| `Solinas.MulModP` | acir2llzk/src/blackboxes/ecdsa/modular.rs:153-162 | Product mod p for any 256-bit operands |
| `Barrett.BarrettMuLow` | acir2llzk/src/blackboxes/ecdsa/modular.rs:167-181 | For every n from 1 below 2^256, the low four limbs of the floor of 2^512 / n minus 2^256 |
| `Barrett.ThreeQuarters` | acir2llzk/src/blackboxes/ecdsa/modular.rs:165-230 | Every n with 3*2^254 <= n < 2^256 is among the moduli covered |
| `Barrett.ModulusIsLarge` | acir2llzk/src/blackboxes/ecdsa/modular.rs:165-230 | The moduli covered meet the golden-ratio condition n^2 + n*2^256 >= 2^512 the estimate needs |
| `Barrett.BarrettBound` | acir2llzk/src/blackboxes/ecdsa/modular.rs:183-230 | For a large modulus and reduced operands the quotient estimate is low by at most two |
| `Barrett.FullWidthBound` | acir2llzk/src/blackboxes/ecdsa/modular.rs:183-230 | For every modulus above 2^255 it is low by at most three |
| `Barrett.ThreeTooLow` | acir2llzk/src/blackboxes/ecdsa/modular.rs:183-185 | Low by at most two is not true of every 256-bit modulus: for 1121/2048 of 2^256 and a reduced operand, the estimate for its square is low by three |
| `Barrett.SlackBound` | acir2llzk/src/blackboxes/ecdsa/modular.rs:183-230 | If 2^512 leaves a small enough remainder, the estimate is low by at most two for products below 2^256 * n as well |
| `CurveOrders.OrderRemainder` | acir2llzk/src/blackboxes/ecdsa/constants.rs:31-75 | For both group orders the remainder of 2^512 is that small, computed from the limbs |
| `Barrett.OneReduced` | acir2llzk/src/blackboxes/ecdsa/verify.rs:105 | The product of a hash that may be unreduced and a reduced inverse is covered |
| `Barrett.Corrected` | acir2llzk/src/blackboxes/ecdsa/modular.rs:219-229 | Four limbs of what two conditional subtractions leave are the remainder if and only if it was below three times the modulus |
| `Barrett.ConditionalSubN5` | acir2llzk/src/blackboxes/ecdsa/modular.rs:674-724 | Subtracts n once iff the five-limb value is at least n |
| `Barrett.MulModBarrett` | acir2llzk/src/blackboxes/ecdsa/modular.rs:186-230 | For every modulus above 2^255 and reduced operands, the product mod n if and only if the quotient estimate is low by at most two, which holds whenever n is at least 0.618034 of 2^256; for a group order, the product mod n for all operands whose quotient fits four limbs |
| `Barrett.AddModN` | acir2llzk/src/blackboxes/ecdsa/modular.rs:523-538 | Sum mod n of reduced operands |
| `Barrett.SubModN` | acir2llzk/src/blackboxes/ecdsa/modular.rs:541-556 | Difference mod n of reduced operands |
| `Inversion.CurveModuli` | acir2llzk/src/blackboxes/ecdsa/constants.rs:24-75 | The four curve moduli are proper limbs above 3*2^254 |
| `Inversion.MulModDispatch` | acir2llzk/src/blackboxes/ecdsa/modular.rs:256-283 | Whichever helper is dispatched, the product mod n: for any operands modulo the secp256k1 prime, otherwise for the operands Barrett covers |
| `Inversion.PowModN` | acir2llzk/src/blackboxes/ecdsa/modular.rs:644-669 | The most-significant-bit-first loop returns a^(n-2) mod n for all a < n |
| `Inversion.InvModN` | acir2llzk/src/blackboxes/ecdsa/modular.rs:644-669 | For prime n and non-zero a the product with a is 1 mod n |
| `Inversion.InverseOfZero` | acir2llzk/src/blackboxes/ecdsa/modular.rs:644-669 | Zero is mapped to zero |
| `ModArith.FermatInverse` | acir2llzk/src/blackboxes/ecdsa/modular.rs:644-669 | Fermat: a times a^(p-2) is 1 mod a prime p, proved from the binomial theorem |
| `Jacobians.DoubleCorrect` | acir2llzk/src/blackboxes/ecdsa/point.rs:45-117 | Both doublings represent the tangent sum of the point they stand for, for a point of order two and for infinity as well |
| `Jacobians.AZeroDoubles` | acir2llzk/src/blackboxes/ecdsa/point.rs:45-72 | The formula for a = 0 satisfies the doubling identities |
| `Jacobians.ANeg3Doubles` | acir2llzk/src/blackboxes/ecdsa/point.rs:85-117 | The formula for a = -3 satisfies the doubling identities |
| `Jacobians.FlagsExact` | acir2llzk/src/blackboxes/ecdsa/point.rs:122-160 | The two differences vanish iff the affine coordinates are equal |
| `Jacobians.RegularCorrect` | acir2llzk/src/blackboxes/ecdsa/point.rs:122-160 | With different abscissas mixed addition represents the chord sum |
| `Jacobians.AddMixedCorrect` | acir2llzk/src/blackboxes/ecdsa/point.rs:167-224 | The dispatch represents the chord-and-tangent sum for all pairs of points: distinct, equal, opposite, either at infinity |
| `Jacobians.ToAffineCorrect` | acir2llzk/src/blackboxes/ecdsa/point.rs:507-520 | The affine coordinates of the point represented |
| `PointLimbs.PointDouble` | acir2llzk/src/blackboxes/ecdsa/curve.rs:83-136 | On limbs, the doubling of the curve has the value of the doubling formula |
| `PointLimbs.AddMixedRegularWithFlags` | acir2llzk/src/blackboxes/ecdsa/point.rs:122-160 | On limbs, sum and both flags have the values of the formulas |
| `PointLimbs.PointAddMixedComplete` | acir2llzk/src/blackboxes/ecdsa/point.rs:167-224 | On limbs, the nested selects are the case distinction of the complete addition |
| `PointLimbs.SelectJacobian` | acir2llzk/src/blackboxes/ecdsa/point.rs:226-239 | Selects all three coordinates together |
| `PointLimbs.JacobianToAffine` | acir2llzk/src/blackboxes/ecdsa/point.rs:507-520 | On limbs, the value of the affine conversion |
| `Shamir.ExtractMaskedBit` | acir2llzk/src/blackboxes/ecdsa/point.rs:242-252 | The bit at the position of the mask |
| `Shamir.SelectAffine2x2` | acir2llzk/src/blackboxes/ecdsa/point.rs:257-277 | The entry the two bits name |
| `Shamir.DoubleTracks` | acir2llzk/src/blackboxes/ecdsa/point.rs:365 | Doubling doubles both multiples, and mends an accumulator that had missed infinity |
| `Shamir.AddEntry` | acir2llzk/src/blackboxes/ecdsa/point.rs:366-385 | Adding the selected entry takes in the two bits, also when the entry G + P is infinity and flagged |
| `Shamir.LoopBody` | acir2llzk/src/blackboxes/ecdsa/point.rs:365-425 | One iteration doubles k1 and k2 and takes in the bits: the accumulator goes on standing for k1*G + k2*P, except that it is (0, 0, 1) where G + P is infinity, both are odd and the combination is infinity |
| `Shamir.LimbLoop` | acir2llzk/src/blackboxes/ecdsa/point.rs:327-444 | 64 halvings of the mask shift one limb of each scalar into the multiples, for every table the caller can build |
| `Shamir.JointScalarMul` | acir2llzk/src/blackboxes/ecdsa/point.rs:452-503 | u1*G + u2*P in affine form, with the flag set iff the sum is infinity, if and only if not (G + P is infinity, both scalars are odd and the sum is infinity); in that case it returns (0, 0), unflagged |
| `Shamir.MissedWhenEqual` | acir2llzk/src/blackboxes/ecdsa/point.rs:393-403 | For scalars below the order of G the failing case is: G + P is infinity, and the scalars are equal and odd |
| `Shamir.OneAndOne` | acir2llzk/src/blackboxes/ecdsa/point.rs:393-403 | With G + P = infinity the scalars u1 = u2 = 1 are such a case |
| `Shamir.CombinationSum` | acir2llzk/src/blackboxes/ecdsa/point.rs:452-503 | Combinations add coefficient by coefficient in any abelian group |
| `Verify.SumEntry` | acir2llzk/src/blackboxes/ecdsa/verify.rs:108-127 | The entry G + P the caller precomputes makes the table right; if the sum is infinity the entry is flagged and is (0, 0) |
| `Verify.CurveRhs` | acir2llzk/src/blackboxes/ecdsa/curve.rs:92-152 | x^3 + a*x + b for either curve |
| `CurveConstants.HalfOrder` | acir2llzk/src/blackboxes/ecdsa/constants.rs:38-44 | The low-s threshold is half of the order plus one |
| `CurveConstants.GeneratorOnCurve` | acir2llzk/src/blackboxes/ecdsa/constants.rs:46-103 | The generator limbs satisfy the equation of their curve modulo the field limbs, for both curves |
| `CurveConstants.FieldPrimes` | acir2llzk/src/blackboxes/ecdsa/constants.rs:23-68 | The field limbs are 2^256 - 2^32 - 977 and 2^256 - 2^224 + 2^192 + 2^96 - 1 |
| `Verify.CurveFlags` | acir2llzk/src/blackboxes/ecdsa/verify.rs:99-145 | The flags of the key being on the curve and of the recomputed point: finite and with abscissa r |
| `Verify.FlagsMean` | acir2llzk/src/blackboxes/ecdsa/verify.rs:129-145 | A missed infinity is reported with abscissa zero, so no nonzero r matches it |
| `Verify.VerifyResult` | acir2llzk/src/blackboxes/ecdsa/verify.rs:73-164 | 1 exactly if the key is reduced and on the curve, 0 < r < n, s is nonzero and low, and z/s*G + r/s*P is finite with abscissa r; else 0, for all 256-bit inputs, the failing case of the multiplication included |
| `Blake3.EmitBlake3Hash` | acir2llzk/src/blackboxes/hash/blake3.rs:75-122 | For every number of chunks the pop never fails and the digest is the root form of the recursive tree; read back, it has compressed every block of the input once and in order, with the number of its chunk and the flags where chunks start and end |
| `Blake3.PushChunk` | acir2llzk/src/blackboxes/hash/blake3.rs:86-102 | Merging while the chunk number is even turns the stack for k chunks into the stack for k+1 |
| `Blake3.StackSnoc` | acir2llzk/src/blackboxes/hash/blake3.rs:86-102 | The stack holds the perfect subtrees named by the binary digits of the count; a perfect subtree is appended on top of larger ones |
| `Blake3.HangIsTree` | acir2llzk/src/blackboxes/hash/blake3.rs:104-120 | Folding the stack onto the last chunk gives the tree whose left part is the largest power of two below the count |
| `Blake3.LargestUnique` | acir2llzk/src/blackboxes/hash/blake3.rs:75-122 | The split of the tree is the one power of two that is at most the argument and above its half |
| `Blake3.RootOnce` | acir2llzk/src/blackboxes/hash/blake3.rs:138-155 | The root flag occurs exactly once in the digest |
| `Blake3.ReadBack` | acir2llzk/src/blackboxes/hash/blake3.rs:157-234 | The bytes a digest compresses, left before right, are the input; block i carries counter i/16, starts a chunk iff 16 divides i, ends one iff it is the sixteenth or the last, and only the last has its own length; parents take the key, counter 0 and two finished subtrees |
| `Blake3.TreeLeaves` | acir2llzk/src/blackboxes/hash/blake3.rs:204-234 | A subtree has compressed exactly the blocks of its chunks, in order |
| `Blake3.ChainLeaves` | acir2llzk/src/blackboxes/hash/blake3.rs:157-202 | The chain of a chunk has compressed its first blocks, from the key on |
| `Blake3.EmitChunkOutput` | acir2llzk/src/blackboxes/hash/blake3.rs:157-202 | Chains the blocks of a chunk with start, end and length where they belong |
| `Blake3.HangStack` | acir2llzk/src/blackboxes/hash/blake3.rs:104-120 | Pops the whole stack as left children |
| `Msm.PeelBitsLe` | acir2llzk/src/opcodes/grumpkin/multi_scalar_mul.rs:193-211 | The little-endian digits, and the check passes iff the value fits |
| `Msm.EmitScalarBitsFromLimbs` | acir2llzk/src/opcodes/grumpkin/multi_scalar_mul.rs:182-191 | 128 digits of lo followed by 126 of hi |
| `Msm.GrumpkinScalarModulusBitsLe` | acir2llzk/src/opcodes/grumpkin/multi_scalar_mul.rs:300-307 | The byte table yields the digits of the scalar modulus |
| `Msm.CurvePrimes` | acir2llzk/src/opcodes/grumpkin/multi_scalar_mul.rs:300-307 | The circuit field prime and the scalar modulus are the two primes of BN254, computed from the parameter of the curve family |
| `Msm.ReconstructScalarLimb` | acir2llzk/src/opcodes/grumpkin/multi_scalar_mul.rs:259-273 | The weighted sum of up to 128 bits without wrapping |
| `Msm.CheckBelowModulus` | acir2llzk/src/opcodes/grumpkin/multi_scalar_mul.rs:243-254 | With the gate at one the prefix product accepts iff the bits are strictly below the modulus |
| `Msm.EmitScalarConstraints` | acir2llzk/src/opcodes/grumpkin/multi_scalar_mul.rs:220-257 | With the gate at one the constraints accept iff the bits are the digits of lo and hi and lo + 2^128*hi is below the modulus; with the gate at zero they accept anything |
| `Msm.DecomposesIff` | acir2llzk/src/opcodes/grumpkin/multi_scalar_mul.rs:220-257 | The bit vector accepted is unique: it is the one peeling yields |
| `Msm.BitsUnique` | acir2llzk/src/opcodes/grumpkin/multi_scalar_mul.rs:193-211 | A bit vector is determined by its value and length |
| `Gates.GatedEqMeans` | acir2llzk/src/common.rs:184-196 | A gated equality holds iff the gate is zero or both sides agree |
| `Gates.GatedBooleanMeans` | acir2llzk/src/blackboxes/grumpkin/common.rs:310-321 | A gated boolean check holds iff the gate is zero or the value is a bit |
| `Expressions.EmitExpressionExcluding` | acir2llzk/src/common.rs:47-116 | Splits an expression at the skipped witness into the value of the rest and its coefficient; refuses iff the witness is squared; reports a zero coefficient iff nothing multiplies it |
| `Expressions.EmitExpression` | acir2llzk/src/common.rs:35-43 | The value of the expression modulo the prime, with coefficient 0, 1 and -1 shortcuts |
| `Expressions.Split` | acir2llzk/src/common.rs:47-116 | Expression = rest + coefficient * witness |
| `Expressions.CoefficientApplied` | acir2llzk/src/common.rs:162-178 | Nothing for coefficient zero, otherwise the product |
| `Expressions.ToValueAdds` | acir2llzk/src/common.rs:148-157 | Linear and product coefficient added |
| `AssertZeros.SolveWitness` | acir2llzk/src/opcodes/assert_zero.rs:62-94 | Solves exactly the witness that is not squared and has a coefficient (`AssertZeros.RefusedIff` says when that is); then that witness alone is assigned, to the unique solution if the coefficient is not zero |
| `AssertZeros.RefusedIff` | acir2llzk/src/opcodes/assert_zero.rs:62-94 | A gate with one unknown is refused as non-linear iff a product squares it, as unconstrained iff no product mentions it and all its values give the gate the same value, and accepted otherwise |
| `AssertZeros.MattersIff` | acir2llzk/src/opcodes/assert_zero.rs:62-94 | Two values of a witness that is not squared give the gate different values iff its factor is not zero |
| `AssertZeros.SolvableRuns` | acir2llzk/src/opcodes/assert_zero.rs:23-94 | If every gate at its turn has at most one unknown, not squared and with a factor that is not zero, all gates are accepted |
| `AssertZeros.EmitCompute` | acir2llzk/src/opcodes/assert_zero.rs:23-39 | Zero unknowns leave the state, one is solved, two or more are an error |
| `AssertZeros.ComputeAll` | acir2llzk/src/opcodes/assert_zero.rs:23-39 | @compute over a list of gates is the stepwise execution, and succeeds if every gate can be solved at its turn |
| `AssertZeros.ConstrainAll` | acir2llzk/src/opcodes/assert_zero.rs:41-53 | @constrain accepts iff every gate evaluates to zero |
| `AssertZeros.SolutionExact` | acir2llzk/src/opcodes/assert_zero.rs:62-94 | The gate holds iff the witness has the solved value |
| `AssertZeros.SolvedHolds` | acir2llzk/src/opcodes/assert_zero.rs:23-94 | Every gate that was solved holds in the final assignment |
| `AssertZeros.OnlyExtension` | acir2llzk/src/opcodes/assert_zero.rs:23-94 | Any extension of the inputs that satisfies the solved gates contains the computed assignment |
| `AssertZeros.ConstrainAccepts` | acir2llzk/src/opcodes/assert_zero.rs:41-53 | @constrain accepts the computed assignment iff the gates without unknowns hold |
| `BlockWriters.BlockWriter.ReadWitness` | acir2llzk/src/block_writer.rs:311-319 | The cached read returns the assigned value and changes no assignment |
| `BlockWriters.BlockWriter.SolveAs` | acir2llzk/src/block_writer.rs:335-344 | The witness is known, readable and stored as a struct member with one value |
| `BlockWriters.BlockWriter.ForCompute` | acir2llzk/src/block_writer.rs:116-129 | Starts from the inputs as known witnesses |
| `BlockWriters.BlockWriter.ForConstrain` | acir2llzk/src/block_writer.rs:132-143 | Starts from inputs and struct members; nothing is unknown |
| `BlockWriters.BlockWriter.SetMemory` | acir2llzk/src/block_writer.rs:241-243 | Later accesses to the block use the new array |
| `Memory.SelectorsCompute` | acir2llzk/src/opcodes/memory_ops/selectors.rs:30-66 | One-hot at the index, all zero beyond the length |
| `Memory.SelectorsConstrain` | acir2llzk/src/opcodes/memory_ops/selectors.rs:69-108 | For non-empty arrays accepts iff the index is in range and the selectors are one-hot at it |
| `Memory.EmitSelectRead` | acir2llzk/src/opcodes/memory_ops/memory_read.rs:73-93 | With one-hot selectors the sum is the slot at the index; an empty array is an error |
| `Memory.EmitSelectWrite` | acir2llzk/src/opcodes/memory_ops/memory_write.rs:74-94 | With one-hot selectors exactly the slot at the index changes |
| `Memory.InitMemory` | acir2llzk/src/opcodes/memory_ops/memory_init.rs:27-39 | A fresh array of the witness values becomes the memory of the block |
| `Memory.ConstrainRead` | acir2llzk/src/opcodes/memory_ops/memory_read.rs:46-68 | Accepts iff the read returns the slot of the plain array and the selectors are one-hot |
| `Memory.ConstrainWrite` | acir2llzk/src/opcodes/memory_ops/memory_write.rs:44-70 | Accepts iff the index is in range and the selectors are one-hot; then the memory is the updated plain one and no other block changes |
| `Memory.ConstrainRun` | acir2llzk/src/opcodes/memory_ops/selectors.rs:69-108 | For any sequence of inits, reads and writes, @constrain accepts iff plain arrays accept the run and every selector vector is the forced one |
| `Memory.ForcedUnique` | acir2llzk/src/opcodes/memory_ops/selectors.rs:69-108 | Accepting selectors are unique |
| `Memory.ComputeRun` | acir2llzk/src/opcodes/memory_ops/selectors.rs:30-66 | @compute solves the reads as the abstract run does |
| `Memory.ComputeMeetsConstraints` | acir2llzk/src/opcodes/memory_ops/selectors.rs:30-108 | If indices are in range and each read fills a fresh witness, plain arrays accept the computed assignment and end in the computed memory |
| `Memory.ForcedExist` | acir2llzk/src/opcodes/memory_ops/selectors.rs:69-108 | A run plain arrays accept has accepting selectors: one-hot at each index |
| `Memory.ComputedIsAccepted` | acir2llzk/src/opcodes/memory_ops/selectors.rs:30-108 | The computed assignment has selectors with which @constrain accepts it |
| `IntOps.EmitBinaryIntOp` | acir2llzk/src/brillig/translator.rs:171-212 | Arithmetic mod 2^n, quotients, shifts, comparisons and bitwise operations for every width and operands in range, wherever the emitted operation is defined; the result is in range |
| `IntOps.BitsOfResults` | acir2llzk/src/brillig/translator.rs:205-207 | Every bit of an and, or and exclusive or is the conjunction, disjunction and difference of the operand bits |
| `IntOps.SumsOfResults` | acir2llzk/src/brillig/translator.rs:205-207 | a xor b plus twice a and b is a + b, and so is a or b plus a and b |
| `IntOps.ComparisonsOfResults` | acir2llzk/src/brillig/translator.rs:193-204 | Exactly one of less, equal and greater holds, less-or-equal is the sum of two, and the lesser operand is the one whose distance to the other adds up |
| `IntOps.Masks` | acir2llzk/src/brillig/translator.rs:87-94 | The masks of the six widths |
| `IntOps.ShiftDefined` | acir2llzk/src/brillig/translator.rs:208-211 | Left shifts stay below the prime, and so are defined, whenever width and shift together are at most 253 |
| `IntOps.EmitU128Mul` | acir2llzk/src/brillig/translator.rs:141-165 | The product mod 2^128 without the high cross term, every intermediate below the prime |
| `IntOps.EmitMask` | acir2llzk/src/brillig/translator.rs:87-94 | Masking is reduction mod 2^n |
| `IntOps.MaskIsMod` | acir2llzk/src/brillig/translator.rs:216-223 | Bitwise conjunction with 2^n - 1 is reduction mod 2^n |
| `IntOps.BitwiseFits` | acir2llzk/src/brillig/translator.rs:205-207 | A bitwise operation that maps two zeros to zero stays in the width of its operands |
| `ToRadix.EmitLimbDecomp` | acir2llzk/src/brillig/opcodes/black_box/to_radix.rs:106-124 | The unrolled digits, least significant first; the check passes iff the input is below radix^n |
| `ToRadix.EmitDecompDynamic` | acir2llzk/src/brillig/opcodes/black_box/to_radix.rs:47-98 | The loop stores the same digits most significant first, and no other cell changes |
| `ToRadix.EmitToRadix` | acir2llzk/src/brillig/opcodes/black_box/to_radix.rs:13-43 | For a radix above zero, passes iff the input fits and bits are asked for only with radix two; then the stored digits weigh up to the input. For every radix, no other cell changes |
| `ToRadix.DigitsRoundTrip` | acir2llzk/src/brillig/opcodes/black_box/to_radix.rs:47-124 | The remainder is zero iff the value is below radix^n, and then the digits recompose it |
| `ToRadix.DigitsExact` | acir2llzk/src/brillig/opcodes/black_box/to_radix.rs:106-124 | Digits and remainder always recompose the value, every digit is below the radix |

## Left out

- Structurer.StructureFunction: trace equality is claimed only for loops whose exit edges all start at a conditional natural header; edges from blocks no root reaches count, because the code allocates a flag for them too. For a loop with an escape flag it fails exactly on the outcomes on which the graph breaks (`FlaggedLoops.AgreesUnlessBroken`). For loops with another effective header nothing is claimed about traces.
- FlaggedLoops.FlaggedRuns: that the body of the loop node iterates is a hypothesis here. `Walker.State.StructureShapedLoop` establishes it for bodies without inner loops whose tests, assertions aside, join at the header or at the exit; for other bodies there are rules for each kind of node. The statement is about one loop node, not composed over whole bodies.
- FlaggedLoops.AgreesUnlessBroken: the body is assumed to iterate, as in `FlaggedLoops.FlaggedRuns`.
- Walker.State.StructureRegion: the walks carry a fuel argument the program does not have. For the covered graphs a bound that suffices is proved; for other graphs it is not shown that the program's recursion ends.
- Walker.State.StructureLoop: the run from header to exit destination is claimed for covered loops only, as for the function; that the fuel suffices is not shown for loops with a flag.
- Simulation.SimulatesCall: runs are those of one body over the final blocks; a call is one event, and the body of the callee is structured and compared separately. Opcodes that do not jump are not interpreted.
- CfgBuild.FinalRuns: that no conditional jump is taken into a procedure is the bytecode generator's promise; the bytecode run compared takes none.
- CfgBuild.Build: an error carries its cause, not its message; the messages' block numbers are dropped.
- Loops.DetectNaturalLoops: the hash map is iterated in header order and the final sort is merged into the loop.
- Verify.SumEntry: the group law and primality of the order are hypotheses.
- Barrett.MulModBarrett: 2^255 itself is left out as a modulus, since the constant does not fit for it; nothing is claimed about the value for unreduced operands otherwise than for a group order and a quotient below 2^256.
- Verify.VerifyResult: the source runs the curve arithmetic on a key or an `s` that is out of range as well; the model leaves the last four flags open there (`others`), and the verdict does not depend on them. Byte packing and the predicate around the verdict are left out.
- Jacobians.AddMixedCorrect: primality of the modulus is a hypothesis, and the curve coefficients are parameters here; `Verify` puts in those of the two curves.
- Inversion.InvModN: the inverse property is stated for a prime modulus, with primality as a hypothesis.
- Blake3.EmitBlake3Hash: compression, word arithmetic and byte conversion are uninterpreted; the Brillig call with other arguments is not modelled.
- AssertZeros.ComputeAll: says nothing when a solved coefficient evaluates to zero, because division of field elements by zero is the target's choice.
- AssertZeros.EmitCompute: with several unknowns the model reports the gate as the code does, but which unknown the message names is not fixed.
- BlockWriters.BlockWriter.ReadWitness: the caches of constants and integers only avoid repeated operations and are left out.
- Memory.ConstrainRun: after a rejected access the memory is no longer compared with the plain arrays.
- IntOps.EmitBinaryIntOp: what a division by zero or a left shift that reaches the prime yields is the target's choice, and a parameter of the model.
- ToRadix.EmitToRadix: with radix zero, what the divisions yield is the target's choice and a parameter (`byZero`), so nothing is claimed about the digits; indices are unbounded integers.
- Constant analysis of calldata parameters, foreign calls, predicated calls, registry names and display code.
- The fixed tables and ciphers (AES, SHA-256, Keccak, BLAKE2s, Poseidon2), the Grumpkin point helpers and the ACIR side of multi-scalar multiplication other than scalars.
- Building MLIR regions, types and modules, loading of circuits, and the command line.
