/** The writer of one block (`block_writer.rs`), by the values the block
    computes: witnesses read and solved, the members of the struct, the live
    arrays, and whether the constraints emitted so far accept. */
module BlockWriters {
  import opened Graphs
  import opened Felts

  type Assignment = map<nat, Felt>

  /** An unset witness reads as zero; no operation here reads one. */
  function At(a: Assignment, w: nat): Felt {
    if w in a then a[w] else 0
  }

  /** `b` gives every witness of `a` the same value. */
  ghost predicate Extends(b: Assignment, a: Assignment) {
    forall w :: w in a ==> w in b && b[w] == a[w]
  }

  class BlockWriter {
    var witnessCache: Assignment
    /** Witnesses solved so far; `None` while constraints are written. */
    var known: Option<set<nat>>
    /** The witness members of `%self`. */
    var members: Assignment
    /** The live array of each memory block; operations write it in place. */
    var memories: map<nat, array<Felt>>
    var accepted: bool

    /** The cache never contradicts the struct, and every known witness has a
        value. */
    ghost predicate Valid()
      reads this
    {
      && (forall w :: w in witnessCache && w in members ==> witnessCache[w] == members[w])
      && (known.Some? ==> known.value == witnessCache.Keys && members.Keys <= witnessCache.Keys)
      && (forall b, c :: b in memories && c in memories && b != c ==> memories[b] != memories[c])
    }

    ghost function Assigned(): Assignment
      reads this
    {
      members + witnessCache
    }

    ghost function Arrays(): set<object>
      reads this
    {
      set b | b in memories :: memories[b]
    }

    /** The contents of every memory block. */
    ghost function Contents(): map<nat, seq<Felt>>
      reads this, Arrays()
    {
      map b | b in memories :: memories[b][..]
    }

    /** `@compute`: the inputs are known, nothing else is. */
    constructor ForCompute(inputs: Assignment)
      ensures Valid() && known.Some? && Assigned() == inputs && accepted && memories == map[]
    {
      witnessCache := inputs;
      known := Some(inputs.Keys);
      members := map[];
      memories := map[];
      accepted := true;
    }

    /** `@constrain`: every witness is an input or a member of the struct. */
    constructor ForConstrain(inputs: Assignment, self: Assignment)
      requires forall w :: w in inputs && w in self ==> inputs[w] == self[w]
      ensures Valid() && known.None? && Assigned() == self + inputs && accepted && memories == map[]
    {
      witnessCache := inputs;
      known := None;
      members := self;
      memories := map[];
      accepted := true;
    }

    /** Reads from the struct on first access and caches the value. */
    method ReadWitness(w: nat) returns (val: Felt)
      requires Valid() && w in Assigned()
      modifies this`witnessCache
      ensures Valid() && Assigned() == old(Assigned()) && val == At(Assigned(), w)
    {
      if w in witnessCache {
        return witnessCache[w];
      }
      val := members[w];
      witnessCache := witnessCache[w := val];
      assert members + witnessCache == old(members + witnessCache);
    }

    /** Writes a solved witness to the struct and makes it known. */
    method SolveAs(w: nat, val: Felt)
      requires Valid() && known.Some?
      modifies this`members, this`known, this`witnessCache
      ensures Valid() && known.Some? && Assigned() == old(Assigned())[w := val]
      ensures members == old(members)[w := val]
    {
      members := members[w := val];
      known := Some(known.value + {w});
      witnessCache := witnessCache[w := val];
      assert members + witnessCache == old(members + witnessCache)[w := val];
    }

    method ConstrainEq(lhs: Felt, rhs: Felt)
      modifies this`accepted
      ensures accepted == (old(accepted) && lhs == rhs)
    {
      accepted := accepted && lhs == rhs;
    }

    /** A new array becomes the live array of a block. */
    method SetMemory(block: nat, arr: array<Felt>)
      requires Valid() && arr !in Arrays()
      modifies this`memories
      ensures Valid() && memories == old(memories)[block := arr]
    {
      assert forall b :: b in memories ==> memories[b] in Arrays();
      memories := memories[block := arr];
    }
  }
}
