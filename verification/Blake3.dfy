/** The BLAKE3 chunk tree (`blake3.rs`). The compression function is left
    uninterpreted: a chaining value is the term that computes it. */
module Blake3 {
  import opened PowersOfTwo

  const BLOCK_BYTES: nat := 64
  const CHUNK_BYTES: nat := 1024

  datatype Flag = ChunkStart | ChunkEnd | Parent | Root

  /** The 64 bytes of a block: message bytes, or two chaining values. */
  datatype Words = Message(bytes: seq<nat>) | Children(left: Cv, right: Cv)

  datatype Cv = Key | Compress(input: Cv, words: Words, counter: nat, blockLen: nat, flags: set<Flag>)

  /** The arguments of a compression that has not been made yet. */
  datatype Output = Output(input: Cv, words: Words, counter: nat, blockLen: nat, flags: set<Flag>)

  function OutputCv(o: Output): Cv {
    Compress(o.input, o.words, o.counter, o.blockLen, o.flags)
  }

  /** The root compression: counter 0 and the root flag. */
  function RootCv(o: Output): Cv {
    Compress(o.input, o.words, 0, o.blockLen, o.flags + {Root})
  }

  function ParentOutput(left: Cv, right: Cv): Output {
    Output(Key, Children(left, right), 0, BLOCK_BYTES, {Parent})
  }

  function ParentCv(left: Cv, right: Cv): Cv {
    Compress(Key, Children(left, right), 0, BLOCK_BYTES, {Parent})
  }

  // ── Chunks ───────────────────────────────────────────────────────────────

  function BlockOf(data: seq<nat>, k: nat): seq<nat>
    requires (k + 1) * BLOCK_BYTES <= |data|
  {
    data[k * BLOCK_BYTES..(k + 1) * BLOCK_BYTES]
  }

  function StartFlag(k: nat): set<Flag> {
    if k == 0 then {ChunkStart} else {}
  }

  /** The chaining value before block `k` of a chunk. */
  function ChainBefore(data: seq<nat>, counter: nat, k: nat): Cv
    requires k * BLOCK_BYTES <= |data|
  {
    if k == 0 then Key
    else Compress(ChainBefore(data, counter, k - 1), Message(BlockOf(data, k - 1)), counter, BLOCK_BYTES, StartFlag(k - 1))
  }

  /** The last block of a chunk, with its own length if it is the last of all. */
  function ChunkOutput(data: seq<nat>, counter: nat, finalLen: nat): Output
    requires |data| >= BLOCK_BYTES
  {
    var last := |data| / BLOCK_BYTES - 1;
    Output(ChainBefore(data, counter, last), Message(BlockOf(data, last)), counter, finalLen, StartFlag(last) + {ChunkEnd})
  }

  method EmitChunkOutput(data: seq<nat>, counter: nat, finalLen: nat) returns (output: Output)
    requires |data| >= BLOCK_BYTES
    ensures output == ChunkOutput(data, counter, finalLen)
  {
    var numBlocks := |data| / BLOCK_BYTES;
    var cv := Key;
    for k := 0 to numBlocks
      invariant k < numBlocks
      invariant cv == ChainBefore(data, counter, k)
    {
      var flags: set<Flag> := {};
      if k == 0 {
        flags := flags + {ChunkStart};
      }
      var isLast := k == numBlocks - 1;
      var blockLen := if isLast then finalLen else BLOCK_BYTES;
      var words := Message(BlockOf(data, k));
      if isLast {
        flags := flags + {ChunkEnd};
        return Output(cv, words, counter, blockLen, flags);
      }
      cv := Compress(cv, words, counter, blockLen, flags);
    }
  }

  // ── The tree of the specification ────────────────────────────────────────

  /** The input, cut into chunks; the last one ends with a block of `finalLen`
      bytes. */
  datatype Input = Input(bytes: seq<nat>, finalLen: nat)

  predicate WholeBlocks(input: Input) {
    |input.bytes| >= BLOCK_BYTES && |input.bytes| % BLOCK_BYTES == 0
  }

  function Chunks(input: Input): (n: nat)
    requires WholeBlocks(input)
    ensures n > 0 && (n - 1) * CHUNK_BYTES + BLOCK_BYTES <= |input.bytes| <= n * CHUNK_BYTES
  {
    (|input.bytes| / BLOCK_BYTES + 15) / 16
  }

  function Chunk(input: Input, i: nat): Output
    requires WholeBlocks(input) && i < Chunks(input)
  {
    if i == Chunks(input) - 1 then ChunkOutput(input.bytes[i * CHUNK_BYTES..], i, input.finalLen)
    else ChunkOutput(input.bytes[i * CHUNK_BYTES..(i + 1) * CHUNK_BYTES], i, BLOCK_BYTES)
  }

  /** Section 2.1: the left subtree is the largest power of two chunks that
      leaves some for the right. */
  function Tree(input: Input, first: nat, count: nat): Output
    requires WholeBlocks(input) && count > 0 && first + count <= Chunks(input)
    decreases count
  {
    if count == 1 then Chunk(input, first)
    else
      var left := LargestPower(count - 1);
      ParentOutput(OutputCv(Tree(input, first, left)), OutputCv(Tree(input, first + left, count - left)))
  }

  /** The subtrees left to right for the binary digits of `count`. */
  function Stack(input: Input, first: nat, count: nat): seq<Cv>
    requires WholeBlocks(input) && first + count <= Chunks(input)
    decreases count
  {
    if count == 0 then []
    else
      var p := LargestPower(count);
      [OutputCv(Tree(input, first, p))] + Stack(input, first + p, count - p)
  }

  /** The largest power of two that is at most `n`. */
  function LargestPower(n: nat): (p: nat)
    requires n > 0
    ensures 0 < p <= n < 2 * p
  {
    if n == 1 then 1 else 2 * LargestPower(n / 2)
  }

  lemma {:induction false} LargestIsPower(n: nat) returns (j: nat)
    requires n > 0
    ensures LargestPower(n) == Two(j)
    decreases n
  {
    if n == 1 {
      j := 0;
      assert Two(0) == 1;
    } else {
      var i := LargestIsPower(n / 2);
      j := i + 1;
    }
  }

  lemma {:induction false} PowerOrder(i: nat, j: nat)
    ensures i < j ==> 2 * Two(i) <= Two(j)
    decreases j
  {
    if i < j - 1 {
      PowerOrder(i, j - 1);
    }
  }

  /** The largest power of two below a bound is unique. */
  lemma LargestUnique(n: nat, j: nat)
    requires n > 0 && Two(j) <= n < 2 * Two(j)
    ensures LargestPower(n) == Two(j)
  {
    var i := LargestIsPower(n);
    PowerOrder(i, j);
    PowerOrder(j, i);
  }

  ghost predicate Multiple(a: nat, m: nat) {
    exists q: nat :: a == m * q
  }

  lemma {:induction false} PowerDivides(i: nat, j: nat)
    requires i <= j
    ensures Multiple(Two(j), Two(i))
    decreases j
  {
    if i < j {
      PowerDivides(i, j - 1);
      var q: nat :| Two(j - 1) == Two(i) * q;
      assert Two(j) == Two(i) * (2 * q);
    } else {
      assert Two(j) == Two(i) * 1;
    }
  }

  lemma MultipleSum(a: nat, b: nat, m: nat)
    requires Multiple(a, m) && Multiple(b, m)
    ensures Multiple(a + b, m)
  {
    var x: nat :| a == m * x;
    var y: nat :| b == m * y;
    assert a + b == m * (x + y);
  }

  lemma MultipleDifference(a: nat, b: nat, m: nat)
    requires Multiple(a, m) && Multiple(b, m) && b <= a && m > 0
    ensures Multiple(a - b, m)
  {
    var x: nat :| a == m * x;
    var y: nat :| b == m * y;
    NotBelow(m, y, x);
    var d: nat := x - y;
    assert a - b == m * d;
  }

  lemma NotBelow(m: nat, y: int, x: int)
    requires m > 0 && m * y <= m * x
    ensures y <= x
  {
    if y > x {
      Spread(m, x, y);
    }
  }

  lemma Spread(m: nat, x: int, y: int)
    requires x < y
    ensures m * x + m <= m * y
  {
    ProductNonNegative(m, y - x - 1);
    assert m * (y - x - 1) == m * y - m * x - m;
  }

  lemma {:induction false} ProductNonNegative(m: nat, d: nat)
    ensures m * d >= 0
    decreases d
  {
    if d > 0 {
      ProductNonNegative(m, d - 1);
      assert m * d == m * (d - 1) + m;
    }
  }

  /** A multiple of `m` below a multiple of `m` leaves room for `m`. */
  lemma RoomForOne(a: nat, b: nat, m: nat)
    requires m > 0 && Multiple(a, m) && Multiple(b, m) && a < b
    ensures a + m <= b
  {
    var x: nat :| a == m * x;
    var y: nat :| b == m * y;
    if x < y {
      Spread(m, x, y);
    } else if y < x {
      Spread(m, y, x);
    }
  }

  // ── The stack ────────────────────────────────────────────────────────────

  /** The largest power of two in a multiple of a power of two. */
  lemma LeadingPower(count: nat, j: nat) returns (p: nat)
    requires count > 0 && Multiple(count, Two(j + 1))
    ensures p == LargestPower(count) == LargestPower(count + Two(j)) && Multiple(count - p, Two(j + 1))
  {
    var k := LargestIsPower(count);
    p := Two(k);
    assert 0 == Two(j + 1) * 0;
    RoomForOne(0, count, Two(j + 1));
    PowerOrder(k, j + 1);
    PowerDivides(j + 1, k);
    MultipleSum(p, p, Two(j + 1));
    RoomForOne(count, 2 * p, Two(j + 1));
    MultipleDifference(count, p, Two(j + 1));
    LargestUnique(count + Two(j), k);
  }

  /** A subtree of a smaller power of two goes on top of the stack. */
  lemma {:induction false} StackSnoc(input: Input, first: nat, count: nat, j: nat)
    requires WholeBlocks(input) && first + count + Two(j) <= Chunks(input) && Multiple(count, Two(j + 1))
    ensures Stack(input, first, count + Two(j)) == Stack(input, first, count) + [OutputCv(Tree(input, first + count, Two(j)))]
    decreases count
  {
    hide *;
    if count == 0 {
      StackOfPower(input, first, j);
    } else {
      var p := LeadingPower(count, j);
      StackSnoc(input, first + p, count - p, j);
      StackUnfold(input, first, count, p);
      StackUnfold(input, first, count + Two(j), p);
    }
  }

  lemma StackOfPower(input: Input, first: nat, j: nat)
    requires WholeBlocks(input) && first + Two(j) <= Chunks(input)
    ensures Stack(input, first, 0) == []
    ensures Stack(input, first, Two(j)) == [OutputCv(Tree(input, first, Two(j)))]
  {
    LargestUnique(Two(j), j);
    assert Stack(input, first + Two(j), 0) == [];
  }

  lemma StackUnfold(input: Input, first: nat, count: nat, p: nat)
    requires WholeBlocks(input) && count > 0 && first + count <= Chunks(input) && p == LargestPower(count)
    ensures Stack(input, first, count) == [OutputCv(Tree(input, first, p))] + Stack(input, first + p, count - p)
  {
  }

  /** A perfect tree of twice the size. */
  lemma PerfectTree(input: Input, first: nat, j: nat)
    requires WholeBlocks(input) && first + Two(j + 1) <= Chunks(input)
    ensures OutputCv(Tree(input, first, Two(j + 1)))
         == ParentCv(OutputCv(Tree(input, first, Two(j))), OutputCv(Tree(input, first + Two(j), Two(j))))
  {
    PerfectLeft(j);
    hide Tree, WholeBlocks, Chunks, Two, LargestPower;
    TreeSplits(input, first, Two(j + 1));
  }

  lemma PerfectLeft(j: nat)
    ensures Two(j + 1) == 2 * Two(j) && LargestPower(Two(j + 1) - 1) == Two(j)
  {
    LargestUnique(Two(j + 1) - 1, j);
  }

  /** Hanging the last chunk under the stack, from the top down. */
  function Hang(stack: seq<Cv>, output: Output): Output {
    if stack == [] then output else ParentOutput(stack[0], OutputCv(Hang(stack[1..], output)))
  }

  lemma {:induction false} HangTop(stack: seq<Cv>, cv: Cv, output: Output)
    ensures Hang(stack + [cv], output) == Hang(stack, ParentOutput(cv, OutputCv(output)))
    decreases |stack|
  {
    if stack == [] {
      assert [cv][1..] == [];
      assert Hang([], output) == output;
    } else {
      assert (stack + [cv])[1..] == stack[1..] + [cv];
      HangTop(stack[1..], cv, output);
    }
  }

  /** The subtrees of the stack and the next chunk make the whole tree. */
  lemma {:induction false} HangIsTree(input: Input, first: nat, count: nat)
    requires WholeBlocks(input) && first + count + 1 <= Chunks(input)
    ensures Hang(Stack(input, first, count), Chunk(input, first + count)) == Tree(input, first, count + 1)
    decreases count
  {
    hide Chunk, Chunks, Tree, LargestPower, Stack, WholeBlocks;
    if count == 0 {
      TreeOfOne(input, first);
    } else {
      var p := LargestPower(count);
      HangIsTree(input, first + p, count - p);
      StackUnfold(input, first, count, p);
      assert Stack(input, first, count)[1..] == Stack(input, first + p, count - p);
      TreeSplits(input, first, count + 1);
    }
  }

  lemma TreeOfOne(input: Input, first: nat)
    requires WholeBlocks(input) && first + 1 <= Chunks(input)
    ensures Tree(input, first, 1) == Chunk(input, first) && Stack(input, first, 0) == []
  {
  }

  lemma TreeSplits(input: Input, first: nat, count: nat)
    requires WholeBlocks(input) && count > 1 && first + count <= Chunks(input)
    ensures var left := LargestPower(count - 1);
            Tree(input, first, count) == ParentOutput(OutputCv(Tree(input, first, left)), OutputCv(Tree(input, first + left, count - left)))
  {
  }

  lemma Quotient(total: nat, index: nat, j: nat)
    requires index == total * Two(j) && total % 2 == 0
    ensures index == (total / 2) * Two(j + 1)
  {
    assert total == 2 * (total / 2);
    assert 2 * (total / 2) * Two(j) == (total / 2) * (2 * Two(j));
  }

  /** `newCv` is the tree of the last `2^j` chunks, the stack holds the rest, and
      `total` is what remains of the count after `j` halvings. */
  ghost predicate Merging(input: Input, count: nat, total: nat, j: nat, newCv: Cv, stack: seq<Cv>)
    requires WholeBlocks(input) && count <= Chunks(input)
  {
    && total > 0 && count == total * Two(j) && Two(j) <= count
    && newCv == OutputCv(Tree(input, count - Two(j), Two(j)))
    && stack == Stack(input, 0, count - Two(j))
  }

  lemma MergeStart(input: Input, chunkIndex: nat)
    requires WholeBlocks(input) && chunkIndex + 1 <= Chunks(input)
    ensures Merging(input, chunkIndex + 1, chunkIndex + 1, 0, OutputCv(Chunk(input, chunkIndex)), Stack(input, 0, chunkIndex))
  {
    TreeOfOne(input, chunkIndex);
    assert Two(0) == 1;
  }

  lemma MergeStep(input: Input, count: nat, total: nat, j: nat, newCv: Cv, stack: seq<Cv>)
    requires WholeBlocks(input) && count <= Chunks(input)
    requires Merging(input, count, total, j, newCv, stack) && total % 2 == 0
    ensures |stack| > 0
    ensures Merging(input, count, total / 2, j + 1, ParentCv(stack[|stack| - 1], newCv), stack[..|stack| - 1])
  {
    hide Two, Chunk, Chunks, Tree, Stack, WholeBlocks, Multiple;
    Quotient(total, count, j);
    EvenLeavesTwo(total, j, count);
    var rest := count - Two(j + 1);
    StackSnoc(input, 0, rest, j);
    PerfectTree(input, rest, j);
    assert stack[..|stack| - 1] == Stack(input, 0, rest);
  }

  lemma MergeEnd(input: Input, count: nat, total: nat, j: nat, newCv: Cv, stack: seq<Cv>)
    requires WholeBlocks(input) && count <= Chunks(input)
    requires Merging(input, count, total, j, newCv, stack) && total % 2 == 1
    ensures stack + [newCv] == Stack(input, 0, count)
  {
    hide Two, Chunk, Chunks, Tree, Stack, WholeBlocks, Multiple;
    OddRest(total, j, count);
    StackSnoc(input, 0, count - Two(j), j);
  }

  /** Pushes one more chunk: merges while the number of chunks is even. */
  method PushChunk(cvStack: seq<Cv>, chunkIndex: nat, cv: Cv, ghost input: Input) returns (stack: seq<Cv>)
    requires WholeBlocks(input) && chunkIndex + 1 < Chunks(input)
    requires cvStack == Stack(input, 0, chunkIndex) && cv == OutputCv(Chunk(input, chunkIndex))
    ensures stack == Stack(input, 0, chunkIndex + 1)
  {
    hide Merging, Chunk, Chunks, Stack, WholeBlocks;
    ghost var j: nat := 0;
    var newCv, total: nat := cv, chunkIndex + 1;
    stack := cvStack;
    MergeStart(input, chunkIndex);
    while total % 2 == 0
      invariant total > 0 && Merging(input, chunkIndex + 1, total, j, newCv, stack)
      decreases total
    {
      MergeStep(input, chunkIndex + 1, total, j, newCv, stack);
      var left := stack[|stack| - 1];
      stack := stack[..|stack| - 1];
      newCv := ParentCv(left, newCv);
      total := total / 2;
      j := j + 1;
    }
    MergeEnd(input, chunkIndex + 1, total, j, newCv, stack);
    stack := stack + [newCv];
  }

  lemma EvenLeavesTwo(total: nat, j: nat, count: nat)
    requires total > 0 && total % 2 == 0 && count == total * Two(j)
    ensures Two(j + 1) == 2 * Two(j) && Two(j + 1) <= count && Multiple(count - Two(j + 1), Two(j + 1))
  {
    var q := total / 2;
    Quotient(total, count, j);
    assert count - Two(j + 1) == Two(j + 1) * (q - 1);
    assert Two(j + 1) * (q - 1) >= 0;
  }

  lemma OddRest(total: nat, j: nat, count: nat)
    requires total % 2 == 1 && count == total * Two(j)
    ensures Two(j) <= count && Multiple(count - Two(j), Two(j + 1))
  {
    var q := total / 2;
    assert total == 2 * q + 1;
    assert (2 * q + 1) * Two(j) == Two(j + 1) * q + Two(j);
  }

  lemma ChunkSlices(input: Input, i: nat)
    requires WholeBlocks(input) && i + 1 < Chunks(input)
    ensures (i + 1) * CHUNK_BYTES <= |input.bytes|
    ensures Chunk(input, i) == ChunkOutput(input.bytes[i * CHUNK_BYTES..(i + 1) * CHUNK_BYTES], i, BLOCK_BYTES)
  {
  }

  lemma LastChunk(input: Input)
    requires WholeBlocks(input)
    ensures var last := Chunks(input) - 1;
            last * CHUNK_BYTES + BLOCK_BYTES <= |input.bytes| && Chunk(input, last) == ChunkOutput(input.bytes[last * CHUNK_BYTES..], last, input.finalLen)
  {
  }

  // ── The root flag ────────────────────────────────────────────────────────

  /** How many compressions of a term carry the root flag. */
  function RootFlags(cv: Cv): nat {
    match cv
    case Key => 0
    case Compress(input, words, _, _, flags) =>
      RootFlags(input) + (if Root in flags then 1 else 0)
      + (match words case Message(_) => 0 case Children(l, r) => RootFlags(l) + RootFlags(r))
  }

  lemma {:induction false} ChainHasNoRoot(data: seq<nat>, counter: nat, k: nat)
    requires k * BLOCK_BYTES <= |data|
    ensures RootFlags(ChainBefore(data, counter, k)) == 0
    decreases k
  {
    if k > 0 {
      ChainHasNoRoot(data, counter, k - 1);
    }
  }

  lemma ChunkHasNoRoot(input: Input, i: nat)
    requires WholeBlocks(input) && i < Chunks(input)
    ensures RootFlags(OutputCv(Chunk(input, i))) == 0 && Root !in Chunk(input, i).flags
  {
    var data := if i == Chunks(input) - 1 then input.bytes[i * CHUNK_BYTES..] else input.bytes[i * CHUNK_BYTES..(i + 1) * CHUNK_BYTES];
    ChainHasNoRoot(data, i, |data| / BLOCK_BYTES - 1);
  }

  lemma {:induction false} TreeHasNoRoot(input: Input, first: nat, count: nat)
    requires WholeBlocks(input) && count > 0 && first + count <= Chunks(input)
    ensures RootFlags(OutputCv(Tree(input, first, count))) == 0 && Root !in Tree(input, first, count).flags
    decreases count
  {
    hide Tree, Chunk, Chunks, LargestPower, WholeBlocks;
    if count == 1 {
      TreeOfOne(input, first);
      ChunkHasNoRoot(input, first);
    } else {
      var left := LargestPower(count - 1);
      TreeSplits(input, first, count);
      TreeHasNoRoot(input, first, left);
      TreeHasNoRoot(input, first + left, count - left);
    }
  }

  /** The root flag is used exactly once. */
  lemma RootOnce(input: Input)
    requires WholeBlocks(input)
    ensures RootFlags(RootCv(Tree(input, 0, Chunks(input)))) == 1
  {
    TreeHasNoRoot(input, 0, Chunks(input));
  }

  // ── Reading a term back ──────────────────────────────────────────────────

  /** One compression of message bytes: its block, its counter and length, and
      whether it starts or ends a chunk. */
  datatype Leaf = Leaf(bytes: seq<nat>, counter: nat, blockLen: nat, start: bool, end: bool)

  /** The blocks a term compresses, first to last. */
  function Leaves(cv: Cv): seq<Leaf> {
    match cv
    case Key => []
    case Compress(input, words, counter, blockLen, flags) =>
      match words
      case Message(bytes) => Leaves(input) + [Leaf(bytes, counter, blockLen, ChunkStart in flags, ChunkEnd in flags)]
      case Children(left, right) => Leaves(input) + Leaves(left) + Leaves(right)
  }

  /** The bytes a term compresses. */
  function BytesOf(cv: Cv): seq<nat> {
    match cv
    case Key => []
    case Compress(input, words, _, _, _) =>
      match words
      case Message(bytes) => BytesOf(input) + bytes
      case Children(left, right) => BytesOf(input) + BytesOf(left) + BytesOf(right)
  }

  function LeafBytes(leaves: seq<Leaf>): seq<nat> {
    if leaves == [] then [] else LeafBytes(leaves[..|leaves| - 1]) + leaves[|leaves| - 1].bytes
  }

  function Blocks(input: Input): nat {
    |input.bytes| / 64
  }

  /** Block `i` of the input: sixteen blocks of 64 bytes make a chunk, and only the
      last block of all may be shorter. */
  function BlockAt(input: Input, i: nat): Leaf
    requires i < Blocks(input)
  {
    var last := i == Blocks(input) - 1;
    Leaf(input.bytes[i * 64..(i + 1) * 64], i / 16, if last then input.finalLen else 64, i % 16 == 0, i % 16 == 15 || last)
  }

  function BlocksFrom(input: Input, from: nat, count: nat): seq<Leaf>
    requires from + count <= Blocks(input)
  {
    seq(count, k requires 0 <= k < count => BlockAt(input, from + k))
  }

  /** A chain starts at the key with its first block and keeps its counter; a
      parent compresses the key with two finished subtrees. */
  predicate Tagged(cv: Cv) {
    match cv
    case Key => true
    case Compress(input, words, counter, blockLen, flags) =>
      match words
      case Message(bytes) =>
        && |bytes| == 64 && Tagged(input) && Parent !in flags
        && (if ChunkStart in flags then input == Key
            else input.Compress? && input.words.Message? && ChunkEnd !in input.flags && input.counter == counter)
      case Children(left, right) =>
        && input == Key && counter == 0 && blockLen == 64
        && Parent in flags && ChunkStart !in flags && ChunkEnd !in flags
        && Tagged(left) && Tagged(right) && Finished(left) && Finished(right)
  }

  /** The last compression of a chunk or a parent, and not the root. */
  predicate Finished(cv: Cv) {
    cv.Compress? && (ChunkEnd in cv.flags || Parent in cv.flags) && Root !in cv.flags
  }

  lemma BlocksConcat(input: Input, from: nat, m: nat, n: nat)
    requires from + m + n <= Blocks(input)
    ensures BlocksFrom(input, from, m) + BlocksFrom(input, from + m, n) == BlocksFrom(input, from, m + n)
  {
  }

  /** Where the blocks of chunk `i` are. */
  lemma ChunkBlocks(input: Input, i: nat)
    requires WholeBlocks(input) && i < Chunks(input)
    ensures 16 * i < Blocks(input) && (i < Chunks(input) - 1 ==> 16 * i + 16 < Blocks(input))
    ensures i == Chunks(input) - 1 ==> Blocks(input) <= 16 * i + 16
  {
  }

  function ChunkSize(input: Input, i: nat): nat
    requires WholeBlocks(input) && i < Chunks(input)
  {
    ChunkBlocks(input, i);
    if i == Chunks(input) - 1 then Blocks(input) - 16 * i else 16
  }

  function ChunkData(input: Input, i: nat): (data: seq<nat>)
    requires WholeBlocks(input) && i < Chunks(input)
    ensures |data| == ChunkSize(input, i) * BLOCK_BYTES
  {
    if i == Chunks(input) - 1 then input.bytes[i * CHUNK_BYTES..] else input.bytes[i * CHUNK_BYTES..(i + 1) * CHUNK_BYTES]
  }

  /** Block `k` of chunk `i` among all blocks. */
  lemma BlockInChunk(input: Input, i: nat, k: nat)
    requires WholeBlocks(input) && i < Chunks(input) && k < ChunkSize(input, i)
    ensures 16 * i + k < Blocks(input) && (k + 1) * BLOCK_BYTES <= |ChunkData(input, i)|
    ensures var last := k == ChunkSize(input, i) - 1;
            BlockAt(input, 16 * i + k)
              == Leaf(BlockOf(ChunkData(input, i), k), i, if last && i == Chunks(input) - 1 then input.finalLen else BLOCK_BYTES, k == 0, last)
  {
    ChunkBlocks(input, i);
    var end := if i == Chunks(input) - 1 then |input.bytes| else (i + 1) * CHUNK_BYTES;
    assert ChunkData(input, i) == input.bytes[i * CHUNK_BYTES..end];
    SliceOfSlice(input.bytes, i * CHUNK_BYTES, end, k * BLOCK_BYTES, (k + 1) * BLOCK_BYTES);
  }

  lemma SliceOfSlice(s: seq<nat>, from: nat, end: nat, a: nat, b: nat)
    requires a <= b && from + b <= end <= |s|
    ensures s[from..end][a..b] == s[from + a..from + b]
  {
    forall k | 0 <= k < b - a
      ensures s[from..end][a..b][k] == s[from + a..from + b][k]
    {
      assert s[from..end][a..b][k] == s[from..end][a + k];
    }
  }

  /** The chain of chunk `i` has compressed its first `k` blocks. */
  ghost predicate Chained(input: Input, cv: Cv, i: nat, k: nat) {
    && 16 * i + k <= Blocks(input) && Leaves(cv) == BlocksFrom(input, 16 * i, k) && Tagged(cv)
    && (if k == 0 then cv == Key else cv.Compress? && cv.words.Message? && ChunkEnd !in cv.flags && cv.counter == i)
  }

  /** One more block of the chunk. */
  lemma BlockCompressed(input: Input, cv: Cv, i: nat, k: nat, bytes: seq<nat>, blockLen: nat, flags: set<Flag>)
    requires Chained(input, cv, i, k) && 16 * i + k < Blocks(input) && |bytes| == BLOCK_BYTES
    requires BlockAt(input, 16 * i + k) == Leaf(bytes, i, blockLen, ChunkStart in flags, ChunkEnd in flags)
    requires Parent !in flags && (ChunkStart in flags <==> k == 0)
    ensures var next := Compress(cv, Message(bytes), i, blockLen, flags);
            && Leaves(next) == BlocksFrom(input, 16 * i, k + 1) && Tagged(next)
            && (ChunkEnd !in flags ==> Chained(input, next, i, k + 1))
  {
    BlocksConcat(input, 16 * i, k, 1);
    assert BlocksFrom(input, 16 * i + k, 1) == [BlockAt(input, 16 * i + k)];
    hide BlockAt, BlocksFrom;
  }

  lemma ChainBegins(input: Input, i: nat, data: seq<nat>)
    requires 16 * i <= Blocks(input)
    ensures Chained(input, ChainBefore(data, i, 0), i, 0)
  {
    assert Leaves(Key) == BlocksFrom(input, 16 * i, 0);
  }

  lemma ChainStep(data: seq<nat>, counter: nat, k: nat)
    requires 0 < k && k * BLOCK_BYTES <= |data|
    ensures ChainBefore(data, counter, k)
         == Compress(ChainBefore(data, counter, k - 1), Message(BlockOf(data, k - 1)), counter, BLOCK_BYTES, StartFlag(k - 1))
    ensures |BlockOf(data, k - 1)| == BLOCK_BYTES
  {
  }

  lemma {:induction false} ChainLeaves(input: Input, i: nat, k: nat)
    requires WholeBlocks(input) && i < Chunks(input) && k < ChunkSize(input, i)
    ensures k * BLOCK_BYTES <= |ChunkData(input, i)| && Chained(input, ChainBefore(ChunkData(input, i), i, k), i, k)
    decreases k
  {
    hide BlockAt, ChunkData, Chunks, ChunkSize, WholeBlocks, Chained, ChainBefore, BlockOf;
    BlockInChunk(input, i, k);
    if k == 0 {
      ChainBegins(input, i, ChunkData(input, i));
    } else {
      ChainLeaves(input, i, k - 1);
      BlockInChunk(input, i, k - 1);
      var data := ChunkData(input, i);
      ChainStep(data, i, k);
      BlockCompressed(input, ChainBefore(data, i, k - 1), i, k - 1, BlockOf(data, k - 1), BLOCK_BYTES, StartFlag(k - 1));
    }
  }

  lemma ChunkIs(input: Input, i: nat)
    requires WholeBlocks(input) && i < Chunks(input)
    ensures Chunk(input, i) == ChunkOutput(ChunkData(input, i), i, if i == Chunks(input) - 1 then input.finalLen else BLOCK_BYTES)
    ensures |ChunkData(input, i)| / BLOCK_BYTES == ChunkSize(input, i) > 0
  {
  }

  /** The term is a finished subtree over the blocks from `from` up. */
  ghost predicate Covers(input: Input, cv: Cv, from: nat, count: nat) {
    from + count <= Blocks(input) && Leaves(cv) == BlocksFrom(input, from, count) && Tagged(cv) && Finished(cv)
  }

  lemma ChunkLeaves(input: Input, i: nat)
    requires WholeBlocks(input) && i < Chunks(input)
    ensures Covers(input, OutputCv(Chunk(input, i)), 16 * i, ChunkSize(input, i))
  {
    ChunkIs(input, i);
    var k := ChunkSize(input, i) - 1;
    ChainLeaves(input, i, k);
    BlockInChunk(input, i, k);
    hide BlockAt, ChunkData, Chunks, ChunkSize, WholeBlocks, BlocksFrom, Chunk, Chained;
    var data := ChunkData(input, i);
    var blockLen := if i == Chunks(input) - 1 then input.finalLen else BLOCK_BYTES;
    BlockCompressed(input, ChainBefore(data, i, k), i, k, BlockOf(data, k), blockLen, StartFlag(k) + {ChunkEnd});
  }

  /** A parent covers what its children do. */
  lemma ParentCovers(input: Input, left: Cv, right: Cv, from: nat, m: nat, n: nat)
    requires Covers(input, left, from, m) && Covers(input, right, from + m, n)
    ensures Covers(input, OutputCv(ParentOutput(left, right)), from, m + n)
  {
    BlocksConcat(input, from, m, n);
    hide BlocksFrom;
    ParentLeaves(left, right);
  }

  lemma ParentLeaves(left: Cv, right: Cv)
    requires Tagged(left) && Tagged(right) && Finished(left) && Finished(right)
    ensures var cv := OutputCv(ParentOutput(left, right)); Leaves(cv) == Leaves(left) + Leaves(right) && Tagged(cv) && Finished(cv)
  {
    assert Leaves(Key) == [];
    assert [] + Leaves(left) == Leaves(left);
  }

  /** How many blocks the chunks from `first` up have. */
  function SpanSize(input: Input, first: nat, count: nat): nat
    requires WholeBlocks(input) && count > 0 && first + count <= Chunks(input)
  {
    ChunkBlocks(input, first + count - 1);
    16 * (count - 1) + ChunkSize(input, first + count - 1)
  }

  lemma SpanSplits(input: Input, first: nat, left: nat, right: nat)
    requires WholeBlocks(input) && left > 0 && right > 0 && first + left + right <= Chunks(input)
    ensures SpanSize(input, first, left) == 16 * left
    ensures SpanSize(input, first, left + right) == 16 * left + SpanSize(input, first + left, right)
    ensures 16 * first + SpanSize(input, first, left + right) <= Blocks(input)
  {
    ChunkBlocks(input, first + left + right - 1);
  }

  /** A subtree has compressed the blocks of its chunks, in order. */
  lemma {:induction false} TreeLeaves(input: Input, first: nat, count: nat)
    requires WholeBlocks(input) && count > 0 && first + count <= Chunks(input)
    ensures Covers(input, OutputCv(Tree(input, first, count)), 16 * first, SpanSize(input, first, count))
    decreases count
  {
    hide Chunk, Chunks, Tree, LargestPower, WholeBlocks, Covers;
    if count == 1 {
      TreeOfOne(input, first);
      ChunkLeaves(input, first);
    } else {
      hide SpanSize;
      var left := LargestPower(count - 1);
      TreeSplits(input, first, count);
      TreeLeaves(input, first, left);
      TreeLeaves(input, first + left, count - left);
      SpanSplits(input, first, left, count - left);
      ParentCovers(input, OutputCv(Tree(input, first, left)), OutputCv(Tree(input, first + left, count - left)), 16 * first, 16 * left,
                   SpanSize(input, first + left, count - left));
    }
  }

  lemma {:induction false} LeavesHaveBytes(cv: Cv)
    ensures LeafBytes(Leaves(cv)) == BytesOf(cv)
  {
    match cv
    case Key =>
    case Compress(input, words, counter, blockLen, flags) =>
      LeavesHaveBytes(input);
      match words
      case Message(bytes) =>
        var leaf := Leaf(bytes, counter, blockLen, ChunkStart in flags, ChunkEnd in flags);
        assert (Leaves(input) + [leaf])[..|Leaves(input)|] == Leaves(input);
      case Children(left, right) =>
        LeavesHaveBytes(left);
        LeavesHaveBytes(right);
        LeafBytesConcat(Leaves(input), Leaves(left));
        LeafBytesConcat(Leaves(input) + Leaves(left), Leaves(right));
  }

  lemma {:induction false} LeafBytesConcat(a: seq<Leaf>, b: seq<Leaf>)
    ensures LeafBytes(a + b) == LeafBytes(a) + LeafBytes(b)
    decreases |b|
  {
    if b == [] {
      assert a + b == a;
    } else {
      assert (a + b)[..|a + b| - 1] == a + b[..|b| - 1];
      LeafBytesConcat(a, b[..|b| - 1]);
    }
  }

  lemma {:induction false} BlocksHaveBytes(input: Input, count: nat)
    requires count <= Blocks(input)
    ensures LeafBytes(BlocksFrom(input, 0, count)) == input.bytes[..count * BLOCK_BYTES]
    decreases count
  {
    if count > 0 {
      BlocksHaveBytes(input, count - 1);
      var blocks := BlocksFrom(input, 0, count);
      assert blocks[..count - 1] == BlocksFrom(input, 0, count - 1);
      assert input.bytes[..(count - 1) * BLOCK_BYTES] + input.bytes[(count - 1) * BLOCK_BYTES..count * BLOCK_BYTES]
          == input.bytes[..count * BLOCK_BYTES];
    }
  }

  lemma WholeSpan(input: Input)
    requires WholeBlocks(input)
    ensures SpanSize(input, 0, Chunks(input)) == Blocks(input) && Blocks(input) * BLOCK_BYTES == |input.bytes|
  {
  }

  lemma RootCounter(input: Input)
    requires WholeBlocks(input)
    ensures Tree(input, 0, Chunks(input)).counter == 0
  {
    if Chunks(input) == 1 {
      TreeOfOne(input, 0);
    } else {
      TreeSplits(input, 0, Chunks(input));
    }
  }

  /** The root compression compresses what the output would. */
  lemma RootReads(o: Output)
    requires o.counter == 0 && Tagged(OutputCv(o))
    ensures Leaves(RootCv(o)) == Leaves(OutputCv(o)) && Tagged(RootCv(o))
  {
  }

  /** The digest read back: every block of the input once and in order, with the
      number of its chunk, and the flags exactly where chunks start and end. */
  ghost predicate ReadsAs(digest: Cv, input: Input) {
    && Leaves(digest) == BlocksFrom(input, 0, Blocks(input)) && BytesOf(digest) == input.bytes
    && Tagged(digest) && digest.Compress? && Root in digest.flags && RootFlags(digest) == 1
  }

  lemma ReadBack(input: Input)
    requires WholeBlocks(input)
    ensures ReadsAs(RootCv(Tree(input, 0, Chunks(input))), input)
  {
    var n := Chunks(input);
    var o := Tree(input, 0, n);
    TreeLeaves(input, 0, n);
    WholeSpan(input);
    RootCounter(input);
    RootReads(o);
    RootOnce(input);
    LeavesHaveBytes(RootCv(o));
    BlocksHaveBytes(input, Blocks(input));
    assert input.bytes[..|input.bytes|] == input.bytes;
    hide Tree, Chunks, SpanSize, BlocksFrom, Leaves, BytesOf, Tagged, RootFlags, Finished, WholeBlocks, LeafBytes;
  }

  // ── The hash ─────────────────────────────────────────────────────────────

  method EmitStack(inputs: seq<nat>, numChunks: nat, ghost input: Input) returns (cvStack: seq<Cv>)
    requires WholeBlocks(input) && input.bytes == inputs && numChunks == Chunks(input)
    ensures cvStack == Stack(input, 0, numChunks - 1)
  {
    hide Chunk, Chunks, Stack, ChunkOutput;
    cvStack := [];
    StackStart(input);
    for chunkIndex := 0 to numChunks - 1
      invariant cvStack == Stack(input, 0, chunkIndex)
    {
      ChunkSlices(input, chunkIndex);
      var chunkData := inputs[chunkIndex * CHUNK_BYTES..(chunkIndex + 1) * CHUNK_BYTES];
      var output := EmitChunkOutput(chunkData, chunkIndex, BLOCK_BYTES);
      cvStack := PushChunk(cvStack, chunkIndex, OutputCv(output), input);
    }
  }

  lemma StackStart(input: Input)
    requires WholeBlocks(input)
    ensures Stack(input, 0, 0) == []
  {
  }

  /** Hangs the last chunk under the stack, from its top to its bottom. */
  method HangStack(cvStack: seq<Cv>, chunk: Output) returns (output: Output)
    ensures output == Hang(cvStack, chunk)
  {
    output := chunk;
    assert cvStack[..|cvStack|] == cvStack;
    for i := |cvStack| downto 0
      invariant Hang(cvStack[..i], output) == Hang(cvStack, chunk)
    {
      assert cvStack[..i + 1] == cvStack[..i] + [cvStack[i]];
      HangTop(cvStack[..i], cvStack[i], output);
      output := ParentOutput(cvStack[i], OutputCv(output));
    }
  }

  /** The digest is the first half of the root compression of the whole tree. */
  method EmitBlake3Hash(inputs: seq<nat>, finalBlockLen: nat) returns (digest: Cv)
    requires WholeBlocks(Input(inputs, finalBlockLen))
    ensures var input := Input(inputs, finalBlockLen);
            digest == RootCv(Tree(input, 0, Chunks(input))) && ReadsAs(digest, input)
  {
    ghost var input := Input(inputs, finalBlockLen);
    var numBlocks := |inputs| / BLOCK_BYTES;
    var numChunks := (numBlocks + CHUNK_BYTES / BLOCK_BYTES - 1) / (CHUNK_BYTES / BLOCK_BYTES);
    assert numChunks == Chunks(input);
    ReadBack(input);
    hide Chunk, Chunks, Stack, Tree, ChunkOutput, WholeBlocks, ReadsAs;
    var cvStack := EmitStack(inputs, numChunks, input);
    var last := numChunks - 1;
    LastChunk(input);
    var output := EmitChunkOutput(inputs[last * CHUNK_BYTES..], last, finalBlockLen);
    HangIsTree(input, 0, last);
    if numChunks == 1 {
      StackStart(input);
      return RootCv(output);
    }
    output := HangStack(cvStack, output);
    return RootCv(output);
  }
}
