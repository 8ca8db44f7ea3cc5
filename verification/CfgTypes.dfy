/** Blocks, terminators and the views of the control-flow graph. */
module CfgTypes {
  import opened Graphs

  type BlockId = nat

  datatype Terminator =
    | Jump(target: BlockId)
    | JumpIf(condition: nat, thenBlock: BlockId, elseBlock: BlockId)
    | Call(callee: BlockId, continuation: BlockId)
    | Return
    | Stop
    | Trap
    | TrapReturn
    | Fallthrough(target: BlockId)
    | Unreachable

  datatype Block = Block(start: nat, endExclusive: nat, terminator: Terminator)

  datatype Error = UnsupportedBrillig(reason: string)

  type Recovered<+T> = Result<T, Error>

  /** `Return`, `Stop`, `Trap` and `TrapReturn` leave the body. */
  predicate IsExit(t: Terminator) {
    t.Return? || t.Stop? || t.Trap? || t.TrapReturn?
  }

  /** A natural loop: its header and the blocks of its body. */
  datatype NaturalLoop = NaturalLoop(header: BlockId, body: set<BlockId>)
}
